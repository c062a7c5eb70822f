# NRKLastNed, modelled in Dafny

NRKLastNed is a Windows front end for the `yt-dlp` downloader, aimed at NRK TV. The user
pastes a programme or series address. The program then does the following:

- It asks yt-dlp for the titles and the available picture heights. The model covers how the
  format table is read, how titles are cleaned, how season and episode tags are made, and
  how the default resolution is chosen.
- It downloads the selected items one after another into a temporary folder. Along the way
  it turns yt-dlp's output into one smooth percentage per item and an aggregate percentage
  for the batch.
- It moves each finished file into the output folder.
- On cancellation, it sweeps the temporary folder for the item's partial files.
- It keeps three things up to date: the application itself, `yt-dlp.exe` and the FFmpeg
  build, each against the latest GitHub release.

The model follows the program's services, one Dafny module per concern:

| file | module | what it holds |
|---|---|---|
| `wrappers.dfy` | `Wrappers` | `Option` and `Result` |
| `text.dfy` | `Text` | the .NET string operations the code relies on: `Trim`, `Split`, `int.TryParse`, ordinal case-insensitive comparison, `ToString` |
| `progress.dfy` | `Progress` | the progress normaliser (`DetectMediaFile`, `ParseProgress`) as a pure state machine over output lines |
| `naming.dfy` | `FileNaming` | the file-name sanitiser, the final and cleanup names, `Path.Combine`, the format selector and the language codes |
| `items.dfy` | `Items` | the download item, as an object whose fields are updated in place |
| `analysis.dfy` | `Analysis` | the format-table scan, the resolution sort, `ApplyResolutions` and `ParseJsonEntry` |
| `download.dfy` | `Download` | `DownloadItemAsync` over a modelled file system: process output, cancellation sweep, completion move |
| `batch.dfy` | `Batch` | the view model's batch loop (`ToggleDownloadAsync`) and the list commands, as a class with its fields |
| `releases.dfy` | `Releases` | the asset search shared by the three update checks |
| `appupdate.dfy` | `AppUpdate` | tag normalisation, `Version.TryParse`, the version comparison and the installer step |
| `ytdlpupdate.dfy` | `YtDlpUpdate` | the yt-dlp version check and the update route |
| `ffmpegupdate.dfy` | `FfmpegUpdate` | the 24-hour staleness rule and the zip extraction |

Parts of the code change state step by step. Those become classes with `modifies` clauses
and loops with invariants, each proved against a specification function:

- `Download.YtDlpService`;
- `Download.FileSystem`;
- `Batch.MainViewModel`;
- `Items.DownloadItem`;
- `FfmpegUpdate.FfmpegUpdateService`;
- the asset loops and the resolution sort.

The normaliser, the sanitiser and the tag clean-up are expressions over strings, so they
become functions, with lemmas about them.

The external world becomes parameters:

- yt-dlp's output lines, and the files it writes;
- the user pressing cancel, before or after the process exits;
- the GitHub answers, or their failure;
- whether a download or a process launch worked;
- the local file times.

## Where the code differs from the behaviour it is meant to have

In each case the model follows the code. That includes the completion move, which loses the
file when the output folder is the temporary folder (see "## Findings"): the service and the
batch run the code's delete-then-move, and the corrected completion is stated and proved
beside it.

- **The finalize marker and the high-water mark.** The per-item percentage is meant never
  to go down. In the code, a finalize marker ("[Merger]", "Merging formats",
  "[VideoRemuxer]", "Writing video") reports 100 without raising the high-water mark, so the
  next download line reports at most 99 again (`Progress.FinalizeThenLowerReport`).
  Download-line reports never decrease (`Progress.EmissionsNonDecreasing`).
- **The aggregate for four items.** With four items, two finished and the third at 50%, one
  would read the batch as half done, 50%. The formula in the code gives 62.5%: 2 × 25 +
  50 × 0.25 (`Batch.AggregateExample`).
- **What a cancel leaves behind.** A cancel is meant to leave no file of the item in the
  temporary folder. In the code, two kinds of file survive:
  - files that cannot be deleted are logged and left (`Download.SweepDeletesOnlyMatches`);
  - a title ending in a dot has that dot replaced by "_" in the cleanup prefix but not in
    the final name ("Ep." gives the prefix "Ep_" and the final name "Ep..mkv"), so the
    finished file escapes the sweep (`FileNaming.DotTailedBaseEscapesSweep`).

  `Download.CancelRemovesFinalFile` gives the case in which the sweep does remove the file.
- **A cancel noticed only at the loop top.** When a download returns normally after the
  token fired, the next loop iteration breaks without writing the cancellation text. The
  batch then ends with "Ferdig! (Total: 100%)" (`Batch.CancelAtLoopTopReadsDone`).
- **A cancel seen after the process exited.** `DownloadItemAsync` returns quietly and leaves
  the file in the temporary folder, while the view model marks the item "Ferdig"
  (`Download.YtDlpService.Download`, the `canceledAfterExit` case).
- **The overall progress at batch start.** The overall progress is not reset when a batch
  starts. It keeps the previous batch's value until the first report
  (`Batch.MainViewModel.BeginBatch`).
- **Where item boundaries fall.** The first item's band includes counter 0: download lines
  before any destination line are scaled into 0..80 (`Progress.FirstFileBand`).
- **A finalize marker on an ignored line.** A line that is both a download line and a
  finalize marker, met while a sidecar is ignored, reports nothing at all
  (`Progress.IgnoredDownloadLine`).

## Model

| member | source | states |
|---|---|---|
| Text.LowerString | NRKLastNed/Services/YtDlpService.cs:210 | the lower-cased line has the same length and lower-cases each character |
| Text.TrimStart | NRKLastNed/Services/YtDlpService.cs:87 | the result is a suffix, drops only white space and starts with none |
| Text.EqualsIgnoreCase | NRKLastNed/Services/UpdateService.cs:96 | `string.Equals` with `OrdinalIgnoreCase` for ASCII: same length and equal letters up to case; `YtDlpUpdate.EqualsIgnoreCaseIsEquivalence` proves it an equivalence |
| Text.StartsWithIgnoreCase | NRKLastNed/Services/YtDlpService.cs:87 | `StartsWith` with `OrdinalIgnoreCase`: the first characters equal the prefix up to case; used to strip the series name |
| Text.EndsWithIgnoreCase | NRKLastNed/Services/AppUpdateService.cs:54 | `EndsWith` with `OrdinalIgnoreCase`: the last characters equal the suffix up to case; used to find the installer |
| Text.TrimEnd | NRKLastNed/Services/YtDlpService.cs:87 | the result is a prefix, drops only white space and ends with none |
| Text.Trim | NRKLastNed/Services/UpdateService.cs:49 | the result is a contiguous part of the input, with no white space at either end; `Text.TrimDropsWhiteSpace` and `Text.TrimIsSpan` pin it down exactly |
| Text.TrimDropsWhiteSpace | NRKLastNed/Services/UpdateService.cs:49 | the result is `s[i..j]`, and everything before `i` and from `j` on is white space |
| Text.TrimIsSpan | NRKLastNed/Services/UpdateService.cs:49 | when `s[i]` and `s[j - 1]` are not white space and everything outside `s[i..j]` is, the result is exactly `s[i..j]` |
| Text.Split | NRKLastNed/Services/AppUpdateService.cs:72 | a split always has at least one part |
| Text.SplitPartsFree | NRKLastNed/Services/AppUpdateService.cs:72 | no part of a split holds the separator |
| Text.SplitJoin | NRKLastNed/Services/AppUpdateService.cs:73 | joining the parts of a split with the separator gives back the string |
| Text.JoinSplit | NRKLastNed/Services/AppUpdateService.cs:73 | splitting a join of separator-free parts gives back the parts |
| Text.SplitConcat | NRKLastNed/Services/AppUpdateService.cs:85-86 | splitting `a + sep + b` gives the parts of `a` followed by the parts of `b` |
| Text.DigitRun | NRKLastNed/Services/YtDlpService.cs:225 | the longest prefix of ASCII digits |
| Text.ParseInt32 | NRKLastNed/Services/AppUpdateService.cs:77 | `int.TryParse` succeeds only with a value in the 32-bit range |
| Text.NatToString | NRKLastNed/Services/AppUpdateService.cs:80 | the rendering is a non-empty run of digits |
| Text.NatToStringValue | NRKLastNed/Services/AppUpdateService.cs:80 | the rendered digits read back as the number |
| Text.ParseNatToString | NRKLastNed/Services/AppUpdateService.cs:77-80 | `int.TryParse` of a rendered 32-bit number gives the number back |
| Text.IntToString | NRKLastNed/Services/AppUpdateService.cs:80 | `int.ToString()`: a minus sign for negative values, then the digits; `Text.ParseNatToString` reads a non-negative rendering back |
| Text.Pad2 | NRKLastNed/Services/YtDlpService.cs:91 | `{n:00}`: at least two digits; `Analysis.Pad2Value` proves that below 100 it is two digits reading back as `n` |
| Progress.DecimalValue | NRKLastNed/Services/YtDlpService.cs:226 | the captured number is never negative |
| Progress.DownloadMatchAt | NRKLastNed/Services/YtDlpService.cs:225 | a match of the progress pattern gives a non-negative number |
| Progress.DownloadPercent | NRKLastNed/Services/YtDlpService.cs:225-226 | the leftmost match's number, never negative |
| Progress.Scaled | NRKLastNed/Services/YtDlpService.cs:231-232 | the first media file (counter at most 1) maps the raw value into 0..80, later files into 80..100; bounded by `Progress.FirstFileBand` and `Progress.SecondFileBand` |
| Progress.DownloadStep | NRKLastNed/Services/YtDlpService.cs:230-237 | the download branch: raise the high-water mark to the scaled value, report the mark capped at 99; `Progress.DownloadLineReports` and `Progress.EmissionIsCappedHighWater` state it |
| Progress.FinalizeReports | NRKLastNed/Services/YtDlpService.cs:243-247 | a finalize marker reports "Ferdigstiller fil..." and 100, any other line nothing; `Progress.FinalizeLineReports` states it |
| Progress.Step | NRKLastNed/Services/YtDlpService.cs:136-139 | one non-empty line: detection, then the progress parse; its effects are stated by `Progress.DetectCounts`, `Progress.DownloadLineReports`, `Progress.FinalizeLineReports` and `Progress.StepMonotone` |
| Progress.Run | NRKLastNed/Services/YtDlpService.cs:136-139 | the lines handled in order, the reports concatenated; `Progress.RunCountsMediaFiles`, `Progress.RunHighWater`, `Progress.EmissionsNonDecreasing` and `Progress.RunPercentsInRange` state what a run does |
| Progress.EmptyLineIsInert | NRKLastNed/Services/YtDlpService.cs:136-139 | an empty line changes no state and reports nothing |
| Progress.DetectCounts | NRKLastNed/Services/YtDlpService.cs:208-221 | a destination line either starts ignoring without counting, or stops ignoring and counts exactly one media file; other lines change nothing |
| Progress.IgnoredDownloadLine | NRKLastNed/Services/YtDlpService.cs:228 | a download line met while ignoring a sidecar reports nothing |
| Progress.DownloadLineReports | NRKLastNed/Services/YtDlpService.cs:225-240 | a download line not ignored reports the raised high-water mark capped at 99, once as text and once as number, and raises the mark to the larger of old and scaled |
| Progress.FinalizeLineReports | NRKLastNed/Services/YtDlpService.cs:243-247 | a finalize marker reports "Ferdigstiller fil..." and exactly 100, and leaves the state as detection left it |
| Progress.SecondFileBand | NRKLastNed/Services/YtDlpService.cs:231-237 | from the second media file on, every download report lies in [80, 99] |
| Progress.StepMonotone | NRKLastNed/Services/YtDlpService.cs:208-248 | a line never lowers the high-water mark or the media file counter |
| Progress.RunPrefix | NRKLastNed/Services/YtDlpService.cs:136-139 | the lines are processed in order, one handler call per line |
| Progress.RunCountsMediaFiles | NRKLastNed/Services/YtDlpService.cs:211-219 | the counter equals the number of media destination lines seen |
| Progress.RunTracksSidecar | NRKLastNed/Services/YtDlpService.cs:211-218 | the ignoring flag is set exactly when the latest destination line named a sidecar |
| Progress.RunHighWater | NRKLastNed/Services/YtDlpService.cs:234-235 | the high-water mark is the largest scaled value of the download lines not ignored |
| Progress.LastDetection | NRKLastNed/Services/YtDlpService.cs:208-248 | the state after a history is ParseProgress applied to what detection left for its last line |
| Progress.HighWaterStep | NRKLastNed/Services/YtDlpService.cs:234-235 | one ParseProgress step extends the high-water mark as the reference definition says |
| Progress.ParseKeepsFlags | NRKLastNed/Services/YtDlpService.cs:223-248 | ParseProgress changes neither the counter nor the ignoring flag |
| Progress.EmissionIsCappedHighWater | NRKLastNed/Services/YtDlpService.cs:234-237 | each download report is the high-water mark up to and including its line, capped at 99 |
| Progress.HighWaterGrows | NRKLastNed/Services/YtDlpService.cs:234-235 | a longer history never has a lower high-water mark |
| Progress.EmissionInRange | NRKLastNed/Services/YtDlpService.cs:230-237 | every download report lies in [0, 99] |
| Progress.EmissionsNonDecreasing | NRKLastNed/Services/YtDlpService.cs:234-237 | later download reports are never lower than earlier ones |
| Progress.FirstFileHighWater | NRKLastNed/Services/YtDlpService.cs:231 | before a second media file, with raw values at most 100, the mark stays within 80 |
| Progress.FirstFileBand | NRKLastNed/Services/YtDlpService.cs:231-237 | during the first media file (and before any), reports lie in [0, 80] |
| Progress.LaterFileBand | NRKLastNed/Services/YtDlpService.cs:232-237 | after the second media destination line, reports lie in [80, 99] |
| Progress.RunPercentsInRange | NRKLastNed/Services/YtDlpService.cs:223-248 | every percentage the normaliser reports lies in [0, 100] |
| Progress.FinalizeThenLowerReport | NRKLastNed/Services/YtDlpService.cs:243-247 | after a finalize marker has reported 100, the next download line reports at most 99 |
| FileNaming.CharRun | NRKLastNed/Services/YtDlpService.cs:104 | the longest prefix made of characters of the class |
| FileNaming.InvalidRun | NRKLastNed/Services/YtDlpService.cs:104 | the longest prefix of invalid characters, the `[...]+` alternative |
| FileNaming.DotRun | NRKLastNed/Services/YtDlpService.cs:104 | the longest prefix of dots, the `\.+` of the first alternative |
| FileNaming.Piece | NRKLastNed/Services/YtDlpService.cs:104-105 | at each position the replace writes "_" or keeps exactly one character, and consumes at least one |
| FileNaming.Sanitize | NRKLastNed/Services/YtDlpService.cs:101-106 | `SanitizeFileName`: the replacement pieces left to right; `FileNaming.SanitizeNoInvalid`, `FileNaming.SanitizeNoDotTail`, `FileNaming.SanitizeFixedIffClean` and `FileNaming.SanitizeIdempotent` state its properties |
| FileNaming.PieceKeeps | NRKLastNed/Services/YtDlpService.cs:104-105 | a character is kept exactly when it is valid and does not start a dot run at the end |
| FileNaming.SanitizeNoInvalid | NRKLastNed/Services/YtDlpService.cs:101-106 | the sanitised name holds no invalid character |
| FileNaming.SanitizeEmpty | NRKLastNed/Services/YtDlpService.cs:101-106 | only the empty name sanitises to the empty name |
| FileNaming.SanitizeNoDotTail | NRKLastNed/Services/YtDlpService.cs:101-106 | the sanitised name does not end in a dot, nor in a dot before a final line feed |
| FileNaming.CleanIsFixed | NRKLastNed/Services/YtDlpService.cs:101-106 | a clean name is left unchanged |
| FileNaming.SanitizeIsClean | NRKLastNed/Services/YtDlpService.cs:101-106 | the result is always clean |
| FileNaming.SanitizeFixedIffClean | NRKLastNed/Services/YtDlpService.cs:101-106 | the sanitiser leaves a name alone exactly when it is clean |
| FileNaming.SanitizeIdempotent | NRKLastNed/Services/YtDlpService.cs:101-106 | sanitising twice is sanitising once |
| FileNaming.SanitizeKeepsEnding | NRKLastNed/Services/YtDlpService.cs:117 | a clean ending such as ".mkv" survives sanitising |
| FileNaming.FileNameBase | NRKLastNed/Services/YtDlpService.cs:115 | the title, then " - " and the tag exactly when there is a tag |
| FileNaming.ResolutionTag | NRKLastNed/Services/YtDlpService.cs:116 | empty exactly for "best", otherwise " - " + height + "p" |
| FileNaming.FinalFileName | NRKLastNed/Services/YtDlpService.cs:115-117 | the sanitised base, resolution tag and ".mkv"; `FileNaming.FinalFileNameIsClean` proves it clean and ending in ".mkv" |
| FileNaming.CleanupPattern | NRKLastNed/Services/YtDlpService.cs:120 | the sanitised base; `FileNaming.CleanupPatternBeginsFinalName` and `FileNaming.DotTailedBaseEscapesSweep` say when it begins the final name |
| FileNaming.FinalFileNameIsClean | NRKLastNed/Services/YtDlpService.cs:115-117 | the final name is clean and ends in ".mkv" |
| FileNaming.CleanupPatternBeginsFinalName | NRKLastNed/Services/YtDlpService.cs:117-120 | the cleanup prefix begins the final name when the base has no dot tail |
| FileNaming.DotTailedBaseEscapesSweep | NRKLastNed/Services/YtDlpService.cs:115-120 | for a clean name `u`, the base `u.` has cleanup prefix `u_`, the final name is `u..mkv`, and the prefix does not begin the final name |
| FileNaming.SanitizeTrailingDot | NRKLastNed/Services/YtDlpService.cs:104-105 | a dot after a clean name becomes "_" and the rest is kept |
| FileNaming.SanitizePrefix | NRKLastNed/Services/YtDlpService.cs:117-120 | the sanitised base begins the sanitised whole name when the base has no dot tail |
| FileNaming.FormatSelector | NRKLastNed/Services/YtDlpService.cs:122 | "res" exactly for "best", otherwise "res:" + height |
| FileNaming.LanguageCode | NRKLastNed/Services/YtDlpService.cs:96-99 | a three-letter code, "und" exactly for an unknown language |
| FileNaming.LanguageCodesDistinct | NRKLastNed/Services/YtDlpService.cs:98 | different known languages get different codes |
| FileNaming.Combine | NRKLastNed/Services/YtDlpService.cs:118 | the path ends with the name, starts with the folder unless the name is rooted, and puts one separator between them |
| FileNaming.TempDirectory | NRKLastNed/Services/YtDlpService.cs:110-111 | the configured folder when it is used and non-empty, otherwise "NRKDownload" under the system temporary folder; never empty |
| Items.DownloadItem.constructor | NRKLastNed/Services/YtDlpService.cs:93 | a new item is "Klar" at 0%; its address, title, tag, selection, language, chosen resolution and resolution list are the ones given |
| Analysis.TokenAt | NRKLastNed/Services/YtDlpService.cs:56 | a match of the format-table pattern is at least "WxH" long |
| Analysis.TokenShape | NRKLastNed/Services/YtDlpService.cs:56 | every captured group is digits, "x", digits |
| Analysis.LineTokenShape | NRKLastNed/Services/YtDlpService.cs:56 | the leftmost group in a line has that shape |
| Analysis.SplitAtX | NRKLastNed/Services/YtDlpService.cs:56 | splitting the group at "x" gives exactly two parts |
| Analysis.LineHeight | NRKLastNed/Services/YtDlpService.cs:56 | the digits after the "x" of a line's leftmost "WxH" group; `Analysis.LineHeightIsDigits` proves every matching line gives one |
| Analysis.HeightsIn | NRKLastNed/Services/YtDlpService.cs:56 | the heights of all lines; `Analysis.CollectHeights` and `Analysis.GetResolutions` prove the list made from it holds each once |
| Analysis.LineHeightIsDigits | NRKLastNed/Services/YtDlpService.cs:56 | every matching line contributes a height, the digits after its "x" |
| Analysis.Rank | NRKLastNed/Services/YtDlpService.cs:57 | "best" outranks every number `int.TryParse` can read, and nothing else does |
| Analysis.SortDescending | NRKLastNed/Services/YtDlpService.cs:57 | the list ends in descending key order and holds the same elements |
| Analysis.Insert | NRKLastNed/Services/YtDlpService.cs:57 | one insertion step extends the sorted prefix and permutes the list |
| Analysis.Swap | NRKLastNed/Services/YtDlpService.cs:57 | exchanges two entries and nothing else |
| Analysis.SameElementsDistinct | NRKLastNed/Services/YtDlpService.cs:53-57 | sorting a list without repeats keeps it without repeats |
| Analysis.GetResolutions | NRKLastNed/Services/YtDlpService.cs:51-58 | "best" first, each height of the table once, nothing else, in descending order; only "best" when the run fails |
| Analysis.CollectHeights | NRKLastNed/Services/YtDlpService.cs:52-56 | the set starts as "best" and gains each height of the table once: no repeats, and nothing but "best" and the heights |
| Analysis.OrderResolutions | NRKLastNed/Services/YtDlpService.cs:57 | the sorted list has the same entries, no repeats, descending order, and "best" first |
| Analysis.FirstTrimmed | NRKLastNed/Services/YtDlpService.cs:73 | the first entry whose trimmed form is the default, or none |
| Analysis.Trimmed | NRKLastNed/Services/YtDlpService.cs:73 | each entry trimmed |
| Analysis.IndexOf | NRKLastNed/Services/YtDlpService.cs:73 | the first occurrence, or none |
| Analysis.ChooseResolution | NRKLastNed/Services/YtDlpService.cs:72-75 | the first entry matching the trimmed default; otherwise the first entry; "best" for an empty list |
| Analysis.ChooseResolutionIsFirst | NRKLastNed/Services/YtDlpService.cs:73 | no entry before the chosen one matches |
| Analysis.ApplyResolutions | NRKLastNed/Services/YtDlpService.cs:69-76 | appends the list to the item's resolutions, selects the default, and changes nothing else |
| Analysis.StripLeadingDashes | NRKLastNed/Services/YtDlpService.cs:87 | the result is a suffix that does not start with white space, a hyphen or an en dash |
| Analysis.StripLeadingDashesDrops | NRKLastNed/Services/YtDlpService.cs:87 | every character dropped is white space, a hyphen or an en dash |
| Analysis.StripLeadingDashesOf | NRKLastNed/Services/YtDlpService.cs:87 | white space, hyphens and en dashes in front of a part that does not start with one are dropped, and nothing else |
| Analysis.NumberingLength | NRKLastNed/Services/YtDlpService.cs:88 | the length of a leading "12. " numbering, within the string; `Analysis.NumberingFound` and `Analysis.NumberingAbsent` say when it is found |
| Analysis.NumberingFound | NRKLastNed/Services/YtDlpService.cs:88 | a numbering found is one or more digits, a dot and all the white space (at least one character) after it |
| Analysis.NumberingAbsent | NRKLastNed/Services/YtDlpService.cs:88 | when none is found, no dot after leading digits is followed by white space |
| Analysis.WhiteRunAt | NRKLastNed/Services/YtDlpService.cs:88 | the longest leading run of white space |
| Analysis.StripNumbering | NRKLastNed/Services/YtDlpService.cs:88 | the result is a suffix of the input |
| Analysis.StripNumberingOf | NRKLastNed/Services/YtDlpService.cs:88 | digits, a dot and white space in front of a part that does not start with white space are dropped, leaving that part |
| Analysis.StripNumberingKeeps | NRKLastNed/Services/YtDlpService.cs:88 | a title that does not start with a digit is kept as it is |
| Analysis.WithoutSeries | NRKLastNed/Services/YtDlpService.cs:87 | the title without a leading series name (ignoring case), trimmed and without the dashes after it; the title itself otherwise; stated by `Analysis.WithoutSeriesDrops` and `Analysis.WithoutSeriesKeeps` |
| Analysis.WithoutSeriesDrops | NRKLastNed/Services/YtDlpService.cs:87 | a title made of the series name in any case, white space and dashes, and a part that starts with none of them and does not end in white space becomes that part |
| Analysis.WithoutSeriesKeeps | NRKLastNed/Services/YtDlpService.cs:87 | a title that does not start with the series name, or an empty series name, leaves the title unchanged |
| Analysis.CleanTitle | NRKLastNed/Services/YtDlpService.cs:86-88 | the series name and a leading "12. " numbering removed; `Analysis.CleanTitleIsInfix`, `Analysis.CleanTitleDropsSeries` and `Analysis.CleanTitleDropsBoth` state it |
| Analysis.CleanTitleDropsSeries | NRKLastNed/Services/YtDlpService.cs:86-88 | "series – name" becomes "name" when the name starts with neither a digit, white space nor a dash and does not end in white space |
| Analysis.CleanTitleDropsBoth | NRKLastNed/Services/YtDlpService.cs:86-88 | "series – 12. name" becomes "name" when the name neither starts nor ends with white space |
| Analysis.SeasonEpisodeTag | NRKLastNed/Services/YtDlpService.cs:91 | "S", the padded season, "E", the padded episode; `Analysis.SeasonEpisodeTagRoundTrip` proves it reads back |
| Analysis.ParseJsonEntry | NRKLastNed/Services/YtDlpService.cs:78-94 | fails exactly when both numbers are present and one is not a 32-bit integer; the address falls back to the original |
| Analysis.InfixTrans | NRKLastNed/Services/YtDlpService.cs:86-88 | a contiguous part of a contiguous part is a contiguous part |
| Analysis.CleanTitleIsInfix | NRKLastNed/Services/YtDlpService.cs:86-88 | the cleaned title is a contiguous part of the title |
| Analysis.ParsedEntryFields | NRKLastNed/Services/YtDlpService.cs:86-93 | with both numbers, the title is the series, " - ", then a contiguous part of the raw title, and numbers below 100 give a tag "S", two digits reading back as the season, "E", two digits reading back as the episode; otherwise the title is a contiguous part of the raw title and there is no tag |
| Analysis.ParsedEntrySeriesTitle | NRKLastNed/Services/YtDlpService.cs:86-93 | an entry with both numbers whose raw title is "series – name" is titled "series - name" |
| Analysis.SeasonEpisodeTagRoundTrip | NRKLastNed/Services/YtDlpService.cs:91 | numbers below 100 give a six-character tag whose digit pairs read back as the numbers |
| Analysis.Pad2Value | NRKLastNed/Services/YtDlpService.cs:91 | `{n:00}` below 100 is two digits that read back as `n` |
| Download.FileSystem.Delete | NRKLastNed/Services/YtDlpService.cs:172 | removes an unlocked file, refuses a locked one, and changes nothing else |
| Download.FileSystem.Move | NRKLastNed/Services/YtDlpService.cs:197 | succeeds exactly when the source exists unlocked and the destination does not; then the destination holds the source's content |
| Download.FileSystem.Write | NRKLastNed/Services/YtDlpService.cs:140-146 | the files the process wrote are added to the folders |
| Download.MovedFile | NRKLastNed/Services/YtDlpService.cs:197 | after a move the content is at the destination |
| Download.Matches | NRKLastNed/Services/YtDlpService.cs:167 | the files of the temporary folder whose names start with the cleanup prefix |
| Download.AfterSweep | NRKLastNed/Services/YtDlpService.cs:168-179 | the matching unlocked files are gone and every other file is unchanged |
| Download.Sweep | NRKLastNed/Services/YtDlpService.cs:164-184 | the delete loop leaves the folders as `AfterSweep` says and logs each locked match |
| Download.SweepDeletesOnlyMatches | NRKLastNed/Services/YtDlpService.cs:166-179 | a file survives the sweep exactly when it does not match or is locked |
| Download.SameFolderLosesFile | NRKLastNed/Services/YtDlpService.cs:195-197 | as written: with the output folder equal to the temporary folder, the completion deletes the finished file before moving it |
| Download.CompletionAsWritten | NRKLastNed/Services/YtDlpService.cs:195-197 | the code's completion: delete the destination (a locked one is a fault), then move (a missing or locked source is a fault); `Download.SameFolderLosesFile` shows it losing the file |
| Download.CompletionDelivers | NRKLastNed/Services/YtDlpService.cs:192-199 | corrected: after completion the finished content is in the output folder, including when the two folders are the same |
| Download.Completion | NRKLastNed/Services/YtDlpService.cs:192-199 | corrected: a file already at its destination stays, otherwise the code's completion; `Download.CompletionDelivers` proves it delivers |
| Download.Complete | NRKLastNed/Services/YtDlpService.cs:192-205 | as the code does it: a locked destination is a fault; otherwise the destination is deleted and the temporary file moved there, a missing or locked source being a fault; files and fault as `CompletionAsWritten` says |
| Download.ArgumentsFrame | NRKLastNed/Services/YtDlpService.cs:125 | the command line starts with the quoted output template and ends with the progress options and the quoted address |
| Download.Arguments | NRKLastNed/Services/YtDlpService.cs:124-125 | the yt-dlp arguments in the code's order; `Download.ArgumentsFrame` states how they begin and end |
| Download.YtDlpService.CommandLine | NRKLastNed/Services/YtDlpService.cs:115-125 | the arguments for an item from the settings and the item's fields; `Download.YtDlpService.CommandLineTargetsTempFile` ties them to the final file |
| Download.YtDlpService.CommandLineTargetsTempFile | NRKLastNed/Services/YtDlpService.cs:115-125 | the output template is the temporary folder joined with the final file name, and the command line ends with the item's address |
| Download.YtDlpService.constructor | NRKLastNed/Services/YtDlpService.cs:23-33 | the settings as given, with the counters at rest |
| Download.YtDlpService.DetectMediaFile | NRKLastNed/Services/YtDlpService.cs:208-221 | the fields change as the `Progress.DetectMediaFile` function says |
| Download.YtDlpService.ParseProgress | NRKLastNed/Services/YtDlpService.cs:223-248 | the fields and the reports as the `Progress.ParseProgress` function says |
| Download.YtDlpService.Normalise | NRKLastNed/Services/YtDlpService.cs:136-139 | the handler loop over the non-empty lines ends in `Progress.Run`'s state and reports |
| Download.YtDlpService.Download | NRKLastNed/Services/YtDlpService.cs:108-206 | the reports, the end, the normaliser state and the files for each outcome: start failure, a cancel while running (sweep or listing failure), a cancel after exit, missing file, the completion as the code does it |
| Download.YtDlpService.Conclude | NRKLastNed/Services/YtDlpService.cs:148-205 | once the process has exited: the sweep after a cancel, nothing after a late cancel, the failure report for a missing file, otherwise the code's delete-then-move and, when it works, the closing reports |
| Download.Concluded | NRKLastNed/Services/YtDlpService.cs:148-205 | the outcomes once the process has exited, with the code's completion; `Download.DownloadPercentsInRange` and `Download.SameFolderDownloadFails` state consequences |
| Download.DownloadPercentsInRange | NRKLastNed/Services/YtDlpService.cs:129-205 | for every outcome `Concluded` allows, every percentage a download reports lies in [0, 100] |
| Download.SameFolderDownloadFails | NRKLastNed/Services/YtDlpService.cs:192-205 | as written: a download whose output folder is its temporary folder ends with the move failing, reports no "Ferdig", and the finished file is gone |
| Download.CancelRemovesFinalFile | NRKLastNed/Services/YtDlpService.cs:164-179 | a cancel removes the unlocked finished file when the base name has no dot tail |
| Batch.Weight | NRKLastNed/ViewModels/MainViewModel.cs:211 | each item's share of 100 is positive |
| Batch.TimesIsProduct | NRKLastNed/ViewModels/MainViewModel.cs:257 | adding the weight once per item is multiplying it by the count |
| Batch.BatchFrom | NRKLastNed/ViewModels/MainViewModel.cs:217-260 | the loop keeps one row per item and starts at most all of them |
| Batch.AggregateInRange | NRKLastNed/ViewModels/MainViewModel.cs:233 | an item's report in [0, 100] keeps the aggregate between its base and its base plus its weight |
| Batch.AggregateExample | NRKLastNed/ViewModels/MainViewModel.cs:233 | four items, two done, the third at 50%: 62.5% |
| Batch.OnEvent | NRKLastNed/ViewModels/MainViewModel.cs:225-237 | a status report sets the row's status and the item line; a percentage sets the row's progress and the aggregate `base + p × weight / 100`; a cancel press fires the token; `Batch.OnEventsInRange`, `Batch.OnEventsCancel` and `Batch.OnEventsNotAborted` state what a sequence of them does |
| Batch.OnEnd | NRKLastNed/ViewModels/MainViewModel.cs:239-255 | a return marks the row "Ferdig" at 100, a cancellation "Avbrutt" with the cancellation line and stops the batch, a failure "Feilet"; `Batch.ItemStepRow` and `Batch.LastStatusNotAborted` state it |
| Batch.ItemStep | NRKLastNed/ViewModels/MainViewModel.cs:221-259 | one item: "Forbereder...", its events, its end, and the base raised by its weight unless it stopped the batch; `Batch.ItemStepRow` and `Batch.BatchFromNext` state it |
| Batch.Finish | NRKLastNed/ViewModels/MainViewModel.cs:262-278 | the closing lines, chosen by whether the status line reads the cancellation text; `Batch.FinalLine` and `Batch.CancelAtLoopTopReadsDone` state the consequences |
| Batch.OnEventsInRange | NRKLastNed/ViewModels/MainViewModel.cs:225-237 | the aggregate stays in [0, 100] through an item's events |
| Batch.OnEventsCancel | NRKLastNed/ViewModels/MainViewModel.cs:184-191 | an item's events fire the token only by a press of the cancel button |
| Batch.ItemStepRow | NRKLastNed/ViewModels/MainViewModel.cs:223-255 | an item's row ends with its outcome's status, and at 100 when it returned |
| Batch.Started | NRKLastNed/ViewModels/MainViewModel.cs:217-255 | the number of items up to and including the first that stops the batch |
| Batch.BatchFromStarted | NRKLastNed/ViewModels/MainViewModel.cs:217-260 | the loop starts exactly the items up to the first that stops it |
| Batch.BatchFromRows | NRKLastNed/ViewModels/MainViewModel.cs:239-255 | each started row ends with its outcome; the rows not started are unchanged |
| Batch.BatchFromTotal | NRKLastNed/ViewModels/MainViewModel.cs:257-259 | the base before item `k` is `k` weights |
| Batch.BatchFromNext | NRKLastNed/ViewModels/MainViewModel.cs:217-260 | one iteration: item `i` runs, then the loop stops or goes on from `i + 1` |
| Batch.FullBatch | NRKLastNed/ViewModels/MainViewModel.cs:211-273 | without a cancellation, every item runs and the total ends at exactly 100 |
| Batch.WeightsAddUp | NRKLastNed/ViewModels/MainViewModel.cs:211 | the weights of all items add up to 100 |
| Batch.NoStopRunsAll | NRKLastNed/ViewModels/MainViewModel.cs:217-260 | with no run stopping the batch, all items start |
| Batch.FinalLine | NRKLastNed/ViewModels/MainViewModel.cs:262-278 | the closing line of a batch that was not cancelled reads "Ferdig! (Total: 100%)" |
| Batch.LastStatusNotAborted | NRKLastNed/ViewModels/MainViewModel.cs:245-250 | only an item that ends cancelled writes the cancellation text |
| Batch.OnEventsNotAborted | NRKLastNed/ViewModels/MainViewModel.cs:225-237 | an item's reports never write the cancellation text |
| Batch.CancelAtLoopTopReadsDone | NRKLastNed/ViewModels/MainViewModel.cs:219-273 | a cancel during an item that still returns ends the batch at the loop top with "Ferdig! (Total: 100%)" |
| Batch.RemoveFirstOne | NRKLastNed/ViewModels/MainViewModel.cs:143 | `List.Remove` drops exactly one occurrence when there is one |
| Batch.KeepMembers | NRKLastNed/ViewModels/MainViewModel.cs:148 | the finished list holds the rows in the set, and only those |
| Batch.DropMembers | NRKLastNed/ViewModels/MainViewModel.cs:146-150 | what is left holds the rows not in the set, and only those |
| Batch.RemoveNext | NRKLastNed/ViewModels/MainViewModel.cs:149 | removing the next finished item removes exactly the first remaining one |
| Batch.DropAll | NRKLastNed/ViewModels/MainViewModel.cs:148-149 | once every finished item is removed, what is left is `Drop` |
| Batch.Views | NRKLastNed/ViewModels/MainViewModel.cs:217-260 | one status and progress pair per item |
| Batch.Titles | NRKLastNed/ViewModels/MainViewModel.cs:217-260 | one title per item |
| Batch.Selectable | NRKLastNed/ViewModels/MainViewModel.cs:195 | the selected items not already "Ferdig", and only those |
| Batch.SelectableDistinct | NRKLastNed/ViewModels/MainViewModel.cs:195 | the selection has no repeats when the list has none |
| Batch.MainViewModel.constructor | NRKLastNed/ViewModels/MainViewModel.cs:33-50 | an empty list, nothing selected, not downloading and no token |
| Batch.MainViewModel.SetIsDownloading | NRKLastNed/ViewModels/MainViewModel.cs:59-68 | sets the flag and the matching button text, nothing else |
| Batch.MainViewModel.RequestCancel | NRKLastNed/ViewModels/MainViewModel.cs:184-193 | fires the token and writes the cancellation lines when there is a token, otherwise nothing |
| Batch.MainViewModel.RemoveItem | NRKLastNed/ViewModels/MainViewModel.cs:141-144 | removes one occurrence of the selected row, or nothing without a selection |
| Batch.MainViewModel.RemoveFinishedItems | NRKLastNed/ViewModels/MainViewModel.cs:146-150 | the list becomes the unfinished items in their order |
| Batch.MainViewModel.HandleEvent | NRKLastNed/ViewModels/MainViewModel.cs:225-237 | one event changes the screen and the item's status and progress as `OnEvent` says; the list, the selection, the busy flag and the token stay, and of the item only status and progress are written |
| Batch.MainViewModel.RunItem | NRKLastNed/ViewModels/MainViewModel.cs:221-259 | one item changes the screen, its row and `stop` as `ItemStep` says; of the items only status and progress are written, so their address, title, tag, selection, language and resolutions stay |
| Batch.MainViewModel.RunNext | NRKLastNed/ViewModels/MainViewModel.cs:217-259 | one pass of the loop is one step of the reference `BatchFrom`: it either ends the batch there or leaves the rest of the batch to run from the next item, and records that item's new row; of the items only status and progress are written, so their address, title, tag, selection, language and resolutions stay |
| Batch.MainViewModel.RunBatch | NRKLastNed/ViewModels/MainViewModel.cs:215-261 | the loop changes the screen and the rows as `BatchFrom` says; of the items only status and progress are written, so their address, title, tag, selection, language and resolutions stay |
| Batch.MainViewModel.ToggleDownload | NRKLastNed/ViewModels/MainViewModel.cs:182-279 | cancels while busy; says so when nothing is selected; otherwise runs the batch over the selection and ends idle; of the items only status and progress are written, so their address, title, tag, selection, language and resolutions stay |
| Batch.MainViewModel.StartBatch | NRKLastNed/ViewModels/MainViewModel.cs:203-278 | a batch ends in `Finish` of the loop's screen, with the rows as `BatchFrom` says; of the items only status and progress are written, so their address, title, tag, selection, language and resolutions stay |
| Batch.MainViewModel.BeginBatch | NRKLastNed/ViewModels/MainViewModel.cs:203-209 | busy, a fresh token, "Starter nedlasting..." and item 1 at 0%, keeping the old total |
| Batch.MainViewModel.EndBatch | NRKLastNed/ViewModels/MainViewModel.cs:262-278 | idle, no token, and the closing lines |
| Releases.FirstFit | NRKLastNed/Services/AppUpdateService.cs:51-60 | the first asset whose name fits, no earlier one fitting; none when none fits |
| Releases.FindAsset | NRKLastNed/Services/AppUpdateService.cs:49-61 | the loop that stops at the first fitting asset finds what `FirstAsset` names |
| AppUpdate.CompareVersions | NRKLastNed/Services/AppUpdateService.cs:90 | the result is -1, 0 or 1, and 0 exactly for equal versions |
| AppUpdate.IsNewerIsStrictOrder | NRKLastNed/Services/AppUpdateService.cs:90 | "newer" is irreflexive, asymmetric and transitive |
| AppUpdate.IsNewer | NRKLastNed/Services/AppUpdateService.cs:90 | `latest > current` as .NET evaluates it; `AppUpdate.IsNewerIsStrictOrder` proves it a strict order and `AppUpdate.OwnTagIsNoUpdate` that the running version is not newer than itself |
| AppUpdate.ParseComponent | NRKLastNed/Services/AppUpdateService.cs:88 | a component parses only to a non-negative 32-bit number |
| AppUpdate.ParseVersion | NRKLastNed/Services/AppUpdateService.cs:88 | two to four components; missing build and revision read as -1 |
| AppUpdate.TrimLeadingV | NRKLastNed/Services/AppUpdateService.cs:67 | a suffix of the tag with no leading "v" or "V"; everything dropped was one |
| AppUpdate.RewriteTwoPart | NRKLastNed/Services/AppUpdateService.cs:72-82 | a two-part tag whose second part has two or more characters, starts with "0" and parses becomes "{first}.0.{value}"; `AppUpdate.CleanTagRewritesLeadingZero` states it |
| AppUpdate.Pad | NRKLastNed/Services/AppUpdateService.cs:85-86 | ".0" appended until the tag has three parts; `AppUpdate.PadHasThreeParts` and `AppUpdate.PadStartsLikeTag` state it |
| AppUpdate.CleanTag | NRKLastNed/Services/AppUpdateService.cs:67-86 | trim the `v`s, rewrite, pad; `AppUpdate.CleanTagHasThreeParts`, `AppUpdate.CleanTagHasNoV` and `AppUpdate.CleanTagIdempotent` state its properties |
| AppUpdate.PadHasThreeParts | NRKLastNed/Services/AppUpdateService.cs:85-86 | the padding gives at least three parts |
| AppUpdate.CleanTagHasThreeParts | NRKLastNed/Services/AppUpdateService.cs:67-86 | every cleaned tag has at least three parts |
| AppUpdate.CleanTagKeepsLongTags | NRKLastNed/Services/AppUpdateService.cs:73-86 | a trimmed tag with three or more parts is left as it is |
| AppUpdate.PadStartsLikeTag | NRKLastNed/Services/AppUpdateService.cs:85-86 | the padding only appends |
| AppUpdate.CleanTagHasNoV | NRKLastNed/Services/AppUpdateService.cs:67-86 | the cleaned tag does not start with "v" or "V" |
| AppUpdate.CleanTagFixes | NRKLastNed/Services/AppUpdateService.cs:67-86 | a tag with no leading "v" or "V" and three or more dot-separated parts is a fixed point of the clean-up |
| AppUpdate.CleanTagIdempotent | NRKLastNed/Services/AppUpdateService.cs:67-86 | cleaning twice is cleaning once |
| AppUpdate.CleanTagPadsBareMajor | NRKLastNed/Services/AppUpdateService.cs:84-86 | "v1" becomes "1.0.0" |
| AppUpdate.ParseRewrittenTag | NRKLastNed/Services/AppUpdateService.cs:80-88 | a rewritten tag "{a}.0.{n}" parses to major `a`, minor 0, build `n`, no revision, so "1.03" compares as 1.0.3 |
| AppUpdate.CleanTagRewritesLeadingZero | NRKLastNed/Services/AppUpdateService.cs:66-86 | "v{a}.{digits}" with two or more digits starting with "0" becomes "{a}.0.{value of digits}" and is not padded further; "v1.03" becomes "1.0.3" |
| AppUpdate.NormaliseTag | NRKLastNed/Services/AppUpdateService.cs:66-86 | the statements that trim, rewrite and pad the tag compute `CleanTag` |
| AppUpdate.CleanTagKeepsMinor | NRKLastNed/Services/AppUpdateService.cs:66-86 | a `V` followed by two dot-free parts, the second without a leading zero, loses the `V` and only gains ".0": "V2.10" becomes "2.10.0" |
| AppUpdate.OwnTagIsNoUpdate | NRKLastNed/Services/AppUpdateService.cs:88-95 | the running version, shown as a tag, parses back to its first three parts and is not newer than itself |
| AppUpdate.IsInstallerName | NRKLastNed/Services/AppUpdateService.cs:54 | an asset name ending in ".exe" in any case; `AppUpdate.CheckForAppUpdates` returns the first such asset |
| AppUpdate.CheckForAppUpdates | NRKLastNed/Services/AppUpdateService.cs:28-111 | no update on failure or an unparsable tag; otherwise the comparison, both version texts, the first ".exe" asset or "", the notes and the title |
| AppUpdate.InstallerPath | NRKLastNed/Services/AppUpdateService.cs:122 | the path ends with the asset name, or the default name when there is none |
| AppUpdate.InstallDirectory | NRKLastNed/Services/AppUpdateService.cs:133-134 | the folder without one trailing backslash |
| AppUpdate.InstallArguments | NRKLastNed/Services/AppUpdateService.cs:140 | `/DIR="folder"`; `AppUpdate.InstallArgumentsQuoteClosed` says when the closing quote survives |
| AppUpdate.InstallArgumentsQuoteClosed | NRKLastNed/Services/AppUpdateService.cs:134-140 | `/DIR="..."` ends in a quote that no backslash escapes, unless the folder ends in two |
| AppUpdate.PerformAppUpdate | NRKLastNed/Services/AppUpdateService.cs:113-160 | the message exactly without an address; a launch with the installer path and arguments exactly when the download and the start work; otherwise a failure that deletes the installer |
| AppUpdate.NoUpdateInstallsNothing | NRKLastNed/Services/AppUpdateService.cs:110-119 | a failed check leads to the "no installer" message |
| YtDlpUpdate.YtDlpVersion | NRKLastNed/Services/UpdateService.cs:30-56 | "Ikke installert" without the exe, "Ukjent" when it cannot be read, otherwise exactly the output after `Trim()` |
| YtDlpUpdate.EqualsIgnoreCaseIsEquivalence | NRKLastNed/Services/UpdateService.cs:96 | comparing ignoring case is an equivalence |
| YtDlpUpdate.NeedsUpdate | NRKLastNed/Services/UpdateService.cs:89-97 | always for a missing or unreadable yt-dlp, otherwise exactly when the versions differ ignoring case; `YtDlpUpdate.NeedsUpdateSymmetric` and `YtDlpUpdate.MissingToolIsOffered` state it |
| YtDlpUpdate.IsExeName | NRKLastNed/Services/UpdateService.cs:81 | the asset named exactly "yt-dlp.exe"; `YtDlpUpdate.CheckForYtDlpUpdate` returns the first such asset's address |
| YtDlpUpdate.NeedsUpdateSymmetric | NRKLastNed/Services/UpdateService.cs:89-97 | for read versions, the answer does not depend on order, and a version is current against itself |
| YtDlpUpdate.CheckForYtDlpUpdate | NRKLastNed/Services/UpdateService.cs:58-107 | on failure "Kunne ikke sjekke" with no update; otherwise the tag, the installed version, the "yt-dlp.exe" address and the update rule |
| YtDlpUpdate.MissingToolIsOffered | NRKLastNed/Services/UpdateService.cs:89-92 | a missing yt-dlp is always offered |
| YtDlpUpdate.Route | NRKLastNed/Services/UpdateService.cs:113-119 | a download exactly with an address; otherwise a self-update exactly when the exe exists |
| YtDlpUpdate.UpdateYtDlp | NRKLastNed/Services/UpdateService.cs:110-169 | each route's message; bytes are written exactly when a download from the release succeeds |
| YtDlpUpdate.FailedCheckFallsBack | NRKLastNed/Services/UpdateService.cs:101-119 | a failed check leads to the self-update, or the fixed message without the exe |
| FfmpegUpdate.StaleBoundary | NRKLastNed/Services/FfmpegUpdateService.cs:91 | a release at most 24 hours newer is not stale; one second more is |
| FfmpegUpdate.IsStale | NRKLastNed/Services/FfmpegUpdateService.cs:82-93 | no local build, or a release published more than 24 hours after the local file was written; `FfmpegUpdate.StaleBoundary` and `FfmpegUpdate.UpdateThenCheckIsCurrent` state it |
| FfmpegUpdate.IsBuildName | NRKLastNed/Services/FfmpegUpdateService.cs:73 | a name holding "win64-gpl.zip" and not "shared"; `FfmpegUpdate.CheckForUpdates` returns the first such asset |
| FfmpegUpdate.CheckForUpdates | NRKLastNed/Services/FfmpegUpdateService.cs:47-105 | on failure "Feil ved sjekk" with nothing offered; otherwise the day, the time, the first "win64-gpl" build and the staleness rule |
| FfmpegUpdate.FailedCheckOffersNothing | NRKLastNed/Services/FfmpegUpdateService.cs:99-102 | a failed check offers neither an update nor an address |
| FfmpegUpdate.Destination | NRKLastNed/Services/FfmpegUpdateService.cs:129-140 | an entry goes to ffmpeg.exe exactly when it names it, else maybe to ffprobe.exe, else nowhere |
| FfmpegUpdate.Extracted | NRKLastNed/Services/FfmpegUpdateService.cs:125-147 | the tool files after the entries are extracted in order, each routed by `Destination`; `FfmpegUpdate.ExtractedKeepsOthers` and `FfmpegUpdate.ExtractedLastWins` state it |
| FfmpegUpdate.ExtractedKeepsOthers | NRKLastNed/Services/FfmpegUpdateService.cs:127-147 | extraction touches only ffmpeg.exe and ffprobe.exe |
| FfmpegUpdate.ExtractedLastWins | NRKLastNed/Services/FfmpegUpdateService.cs:127-147 | a tool file is the last entry routed to it, stamped with the publication time; untouched without one |
| FfmpegUpdate.UpdateThenCheckIsCurrent | NRKLastNed/Services/FfmpegUpdateService.cs:89-137 | after extracting an archive holding ffmpeg.exe, the same release is not stale |
| FfmpegUpdate.FfmpegUpdateService.constructor | NRKLastNed/Services/FfmpegUpdateService.cs:25-28 | the tool files and the zip as given |
| FfmpegUpdate.FfmpegUpdateService.ExtractAll | NRKLastNed/Services/FfmpegUpdateService.cs:125-148 | the entry loop leaves the tools as `Extracted` says |
| FfmpegUpdate.FfmpegUpdateService.UpdateFfmpeg | NRKLastNed/Services/FfmpegUpdateService.cs:107-155 | nothing without an address; otherwise the reports for each outcome, the tools extracted only from a readable archive, and the zip gone |

## Left out

- Processes, HTTP, JSON and the desktop. Starting processes, HTTP requests, JSON parsing,
  message boxes, logging, `Application.Shutdown`, `Task.Delay` and the process-exit timeouts
  are I/O. Their results are parameters of the model: output lines, written files, release
  answers, success flags and cancel timing.
- Asynchronous progress delivery. `Progress<T>` callbacks run on the UI thread. The model
  delivers them synchronously and in order, and does not model a report that lands after
  its item ended.
- Floating point. Percentages are exact reals, not `double`. The `{x:0}` rounding of the
  shown texts is abstracted into the report values.
- Unicode. `ToLowerInvariant` and `OrdinalIgnoreCase` are modelled for ASCII letters only,
  and `\d` is limited to ASCII digits (.NET also matches other Unicode digits).
- `Path.GetInvalidFileNameChars()` is a parameter. It is required to contain neither "." nor
  "_", which holds on Windows.
- File paths are (folder, name) pairs. There is no path normalisation and no case-insensitive
  file-system matching.
- `Directory.GetFiles(temp, pattern + "*")` is modelled as "the name starts with the
  pattern". Windows short-name matching is not modelled.
- Folder creation (`Directory.CreateDirectory`, `Directory.Exists`) is not modelled; the
  folders are taken to exist.
- Analysis.SortDescending: `List.Sort` is an unstable introsort. The model is an insertion
  sort, so entries of equal rank (for example a non-numeric height and "0") may end in a
  different order.
- The corrected completion `Download.Completion` is not what the service or the batch run:
  they follow the code's delete-then-move, and the corrected form is proved only as the
  corrected half of the finding.
- Batch.ToggleDownload requires the list to hold no item twice. The program only adds fresh
  items.
- Batch.Weight: its own contract states only that the weight is positive. That the weights
  add up to 100 is `Batch.WeightsAddUp`.
- Progress.FirstFileBand: the bound of 80 needs raw percentages of at most 100. yt-dlp can
  print more, in which case the code reports up to 99.
- `AnalyzeUrlAsync`'s orchestration is not modelled separately: the process call, and the
  "Kunne ikke analysere tittel" item made when it fails.
- Also not modelled: `ValidateTools`, `AddAndAnalyzeAsync`, `OpenDownloadFolder`,
  `CheckAppUpdateSilentAsync`, settings refresh, `FfmpegUpdateService.GetInstalledVersionAsync`
  and `ShowReleaseNotesIfJustUpdated`. They are messages and I/O around the modelled
  operations.
- `null` strings from the JSON are not modelled. A missing or `null` asset name makes the
  real code throw, which it handles as a failed check.
- A check either fails as a whole or succeeds. An exception after some fields were filled in
  is not modelled, e.g. when reading the file time fails.
- Date parsing, time zones and "yyyy-MM-dd" formatting are not modelled.
  - Times are whole seconds.
  - The shown day is part of the release answer.
  - `DateTime.Parse` gives local time while the file time is UTC, and the model does not
    reproduce that mix.
- FfmpegUpdate.FfmpegUpdateService.UpdateFfmpeg makes these simplifications:
  - an extraction that fails part-way through the entries is not modelled;
  - deleting the zip is modelled as always succeeding (the code swallows a failure);
  - `entry.Name` is given with the entry rather than derived from `entry.FullName`.
- YtDlpUpdate.UpdateYtDlp gives the message and the bytes written. What `yt-dlp --update`
  does to the exe is not modelled.
- The assembly version is a parameter of `AppUpdate.CheckForAppUpdates`.

## Findings

| source | as written | input that shows it | evidently intended | confidence | as-written member | corrected member |
|---|---|---|---|---|---|---|
| NRKLastNed/Services/YtDlpService.cs:195-197 | completion deletes the file at the destination, then moves the temporary file there | the output folder set to the same folder as the temporary folder: destination and source are the same file, so the delete removes the finished download and the move fails | leave the file where it is (nothing to move) and report it done | not executed | Download.SameFolderDownloadFails | Download.CompletionDelivers |
