/**
 * The progress normaliser of the downloader front end (YtDlpService.DetectMediaFile and
 * YtDlpService.ParseProgress), as a pure state machine: a state of three fields, one step per
 * output line of the downloader, and the reports that step sends to the item's two
 * progress channels (a percentage and a status text).
 */
module Progress {
  import opened Wrappers
  import opened Text

  /** A status text. `DownloadingAt(p)` is "Laster ned... (p%)"; the `{p:0}` rounding is not modelled. */
  datatype Message = Plain(text: string) | DownloadingAt(percent: real)

  /** One call of `IProgress<double>.Report` or `IProgress<string>.Report`, in the order made. */
  datatype Report = Percent(value: real) | Status(message: Message)

  /** The fields _mediaFileCounter, _isIgnoringCurrentFile and _maxReportedPercent. */
  datatype ProgressState = ProgressState(mediaFileCounter: int, isIgnoringCurrentFile: bool, maxReportedPercent: real)

  /** The state every download starts from. */
  const Initial := ProgressState(0, false, 0.0)

  const FinalizingText := "Ferdigstiller fil..."

  datatype StepResult = StepResult(state: ProgressState, reports: seq<Report>)

  // ---------------------------------------------------------------------------------------
  // Line classification

  /** The lower-cased line contains "destination:". */
  predicate IsDestinationLine(line: string) {
    Contains(LowerString(line), "destination:")
  }

  /** The lower-cased line names a thumbnail, subtitle or metadata file. */
  predicate NamesSidecar(line: string) {
    var lower := LowerString(line);
    Contains(lower, ".jpg") || Contains(lower, ".webp") || Contains(lower, ".png")
    || Contains(lower, ".vtt") || Contains(lower, ".srt") || Contains(lower, ".xml")
  }

  predicate IsMediaDestination(line: string) {
    IsDestinationLine(line) && !NamesSidecar(line)
  }

  predicate IsSidecarDestination(line: string) {
    IsDestinationLine(line) && NamesSidecar(line)
  }

  /** A merge, remux or write marker (case-sensitive). */
  predicate IsFinalizeLine(line: string) {
    Contains(line, "[Merger]") || Contains(line, "Merging formats")
    || Contains(line, "[VideoRemuxer]") || Contains(line, "Writing video")
  }

  function Pow10(n: nat): (r: nat)
    ensures r >= 1
  {
    if n == 0 then 1 else 10 * Pow10(n - 1)
  }

  /** The value of "d+" or "d+.f+" read as a decimal number. */
  function DecimalValue(whole: string, fraction: string): (r: real)
    requires AllDigits(whole) && AllDigits(fraction)
    ensures r >= 0.0
  {
    DigitsValue(whole) as real + DigitsValue(fraction) as real / Pow10(|fraction|) as real
  }

  /** Length of the longest prefix of `s` made of white space (`\s`). */
  function WhiteRun(s: string): (n: nat)
    ensures n <= |s|
    decreases |s|
  {
    if |s| > 0 && IsWhiteSpace(s[0]) then WhiteRun(s[1..]) + 1 else 0
  }

  /** A match of `\[download\]\s+(\d+(\.\d+)?)%` that starts at the first character of `t`,
      with the number it captures. Each quantifier is greedy and backtracking cannot help,
      so the maximal runs decide the match. */
  function DownloadMatchAt(t: string): (r: Option<real>)
    ensures r.Some? ==> r.value >= 0.0
  {
    if !StartsWith(t, "[download]") then None
    else
      var u := t[10..];
      var w := WhiteRun(u);
      var v := u[w..];
      var d := DigitRun(v);
      var rest := v[d..];
      if w == 0 || d == 0 || |rest| == 0 then None
      else if rest[0] == '%' then Some(DecimalValue(v[..d], ""))
      else if rest[0] != '.' then None
      else
        var f := DigitRun(rest[1..]);
        if f > 0 && 1 + f < |rest| && rest[1 + f] == '%' then Some(DecimalValue(v[..d], rest[1..][..f]))
        else None
  }

  /** The number of the leftmost match of the progress pattern in the line (`Regex.Match` then
      `double.TryParse`, which cannot fail on a string of that shape), or None. */
  function DownloadPercent(line: string): (r: Option<real>)
    ensures r.Some? ==> r.value >= 0.0
    decreases |line|
  {
    if |line| == 0 then None
    else match DownloadMatchAt(line)
      case Some(v) => Some(v)
      case None => DownloadPercent(line[1..])
  }

  // ---------------------------------------------------------------------------------------
  // The two steps a line goes through

  /** DetectMediaFile: a destination line for a sidecar starts ignoring; any other destination
      line stops ignoring and counts one more media file; other lines change nothing. */
  function DetectMediaFile(s: ProgressState, line: string): ProgressState {
    if !IsDestinationLine(line) then s
    else if NamesSidecar(line) then s.(isIgnoringCurrentFile := true)
    else s.(isIgnoringCurrentFile := false, mediaFileCounter := s.mediaFileCounter + 1)
  }

  /** The first media file fills 0..80, later ones 80..100. */
  function Scaled(mediaFileCounter: int, raw: real): real {
    if mediaFileCounter <= 1 then raw * 0.8 else 80.0 + raw * 0.2
  }

  /** The download branch of ParseProgress for a raw percentage: the new state (high-water
      mark raised to the scaled value if that is higher) and the value reported (the larger
      of the two, capped at 99). */
  function DownloadStep(s: ProgressState, raw: real): (ProgressState, real) {
    var calculated := Scaled(s.mediaFileCounter, raw);
    var shown := if calculated < s.maxReportedPercent then s.maxReportedPercent else calculated;
    (s.(maxReportedPercent := shown), if shown > 99.0 then 99.0 else shown)
  }

  function FinalizeReports(line: string): seq<Report> {
    if IsFinalizeLine(line) then [Status(Plain(FinalizingText)), Percent(100.0)] else []
  }

  /** ParseProgress. A download line seen while ignoring returns at once, so it reports nothing,
      not even a finalize marker on the same line. */
  function ParseProgress(s: ProgressState, line: string): StepResult {
    match DownloadPercent(line)
    case Some(raw) =>
      if s.isIgnoringCurrentFile then StepResult(s, [])
      else
        var (next, shown) := DownloadStep(s, raw);
        StepResult(next, [Percent(shown), Status(DownloadingAt(shown))] + FinalizeReports(line))
    case None => StepResult(s, FinalizeReports(line))
  }

  /** One non-empty output line: DetectMediaFile, then ParseProgress. */
  function Step(s: ProgressState, line: string): StepResult {
    ParseProgress(DetectMediaFile(s, line), line)
  }

  /** The value a download line reports in this step, if it reports one. */
  function Emission(s: ProgressState, line: string): Option<real> {
    var d := DetectMediaFile(s, line);
    match DownloadPercent(line)
    case Some(raw) => if d.isIgnoringCurrentFile then None else Some(DownloadStep(d, raw).1)
    case None => None
  }

  /** The state and all reports after a sequence of lines. */
  function Run(s: ProgressState, lines: seq<string>): StepResult
    decreases |lines|
  {
    if lines == [] then StepResult(s, [])
    else
      var prev := Run(s, lines[..|lines| - 1]);
      var last := Step(prev.state, lines[|lines| - 1]);
      StepResult(last.state, prev.reports + last.reports)
  }

  /** What line `i` of a download's output reports as a download percentage, if anything. */
  function EmissionAt(lines: seq<string>, i: nat): Option<real>
    requires i < |lines|
  {
    Emission(Run(Initial, lines[..i]).state, lines[i])
  }

  // ---------------------------------------------------------------------------------------
  // Reference definitions, stated over the whole line history

  /** The number of media destination lines. */
  function MediaFiles(lines: seq<string>): nat
    decreases |lines|
  {
    if lines == [] then 0
    else MediaFiles(lines[..|lines| - 1]) + (if IsMediaDestination(lines[|lines| - 1]) then 1 else 0)
  }

  /** The most recent destination line names a sidecar. */
  ghost predicate InSidecar(lines: seq<string>) {
    exists i :: 0 <= i < |lines| && IsSidecarDestination(lines[i])
      && forall j :: i < j < |lines| ==> !IsDestinationLine(lines[j])
  }

  /** The largest scaled value of any download line not inside a sidecar, or 0. */
  ghost function HighWater(lines: seq<string>): (r: real)
    ensures r >= 0.0
    decreases |lines|
  {
    if lines == [] then 0.0
    else
      var prev := HighWater(lines[..|lines| - 1]);
      var line := lines[|lines| - 1];
      match DownloadPercent(line)
      case Some(raw) =>
        if InSidecar(lines) then prev
        else var v := Scaled(MediaFiles(lines), raw); if v > prev then v else prev
      case None => prev
  }

  // ---------------------------------------------------------------------------------------
  // Properties of one step

  /** Empty lines are dropped before the normaliser; they would change nothing anyway. */
  lemma EmptyLineIsInert(s: ProgressState)
    ensures Step(s, "") == StepResult(s, [])
  {
    assert !Contains(LowerString(""), "destination:");
    assert !IsFinalizeLine("");
  }

  /** A destination line either starts ignoring without counting, or stops ignoring and counts
      exactly one media file; the high-water mark is untouched. */
  lemma DetectCounts(s: ProgressState, line: string)
    ensures var d := DetectMediaFile(s, line);
      && d.maxReportedPercent == s.maxReportedPercent
      && (IsSidecarDestination(line) ==> d.isIgnoringCurrentFile && d.mediaFileCounter == s.mediaFileCounter)
      && (IsMediaDestination(line) ==> !d.isIgnoringCurrentFile && d.mediaFileCounter == s.mediaFileCounter + 1)
      && (!IsDestinationLine(line) ==> d == s)
  {
  }

  /** A download line met while a sidecar is being ignored reports nothing and changes no
      state beyond what its own destination part did. */
  lemma IgnoredDownloadLine(s: ProgressState, line: string)
    requires DownloadPercent(line).Some? && DetectMediaFile(s, line).isIgnoringCurrentFile
    ensures Step(s, line) == StepResult(DetectMediaFile(s, line), [])
    ensures Emission(s, line).None?
  {
  }

  /** A download line not being ignored reports its value twice (number and text), the value is
      the raised high-water mark capped at 99, and it lies in [0, 99]. */
  lemma DownloadLineReports(s: ProgressState, line: string)
    requires s.maxReportedPercent >= 0.0
    requires DownloadPercent(line).Some? && !DetectMediaFile(s, line).isIgnoringCurrentFile
    ensures var d := DetectMediaFile(s, line);
      var raw := DownloadPercent(line).value;
      var r := Step(s, line);
      var p := Emission(s, line).value;
      && Emission(s, line).Some?
      && r.state.maxReportedPercent >= s.maxReportedPercent
      && r.state.maxReportedPercent >= Scaled(d.mediaFileCounter, raw)
      && (r.state.maxReportedPercent == s.maxReportedPercent || r.state.maxReportedPercent == Scaled(d.mediaFileCounter, raw))
      && p == (if r.state.maxReportedPercent > 99.0 then 99.0 else r.state.maxReportedPercent)
      && 0.0 <= p <= 99.0
      && r.reports == [Percent(p), Status(DownloadingAt(p))] + FinalizeReports(line)
  {
  }

  /** A finalize marker reports "Ferdigstiller fil..." and exactly 100, whatever the high-water
      mark; when the line is not also a download line, it leaves the state as detection left it,
      so the high-water mark is not raised to 100. */
  lemma FinalizeLineReports(s: ProgressState, line: string)
    requires IsFinalizeLine(line)
    requires DownloadPercent(line).None?
    ensures Step(s, line) == StepResult(DetectMediaFile(s, line), [Status(Plain(FinalizingText)), Percent(100.0)])
  {
  }

  /** Once two media files have been seen, every reported download value is at least 80. */
  lemma SecondFileBand(s: ProgressState, line: string)
    requires s.maxReportedPercent >= 0.0
    requires DetectMediaFile(s, line).mediaFileCounter >= 2
    requires Emission(s, line).Some?
    ensures 80.0 <= Emission(s, line).value <= 99.0
  {
  }

  /** A step never lowers the high-water mark or the media file count. */
  lemma StepMonotone(s: ProgressState, line: string)
    ensures Step(s, line).state.maxReportedPercent >= s.maxReportedPercent
    ensures Step(s, line).state.mediaFileCounter >= s.mediaFileCounter
  {
  }

  // ---------------------------------------------------------------------------------------
  // Properties of a whole download

  lemma {:induction false} RunPrefix(s: ProgressState, lines: seq<string>, line: string)
    ensures Run(s, lines + [line]).state == Step(Run(s, lines).state, line).state
    ensures Run(s, lines + [line]).reports == Run(s, lines).reports + Step(Run(s, lines).state, line).reports
  {
    assert (lines + [line])[..|lines|] == lines;
  }

  /** The media file counter is the number of media destination lines seen. */
  lemma {:induction false} RunCountsMediaFiles(lines: seq<string>)
    ensures Run(Initial, lines).state.mediaFileCounter == MediaFiles(lines)
    decreases |lines|
  {
    if lines != [] {
      var init := lines[..|lines| - 1];
      RunCountsMediaFiles(init);
      assert lines == init + [lines[|lines| - 1]];
      RunPrefix(Initial, init, lines[|lines| - 1]);
      DetectCounts(Run(Initial, init).state, lines[|lines| - 1]);
    }
  }

  /** The ignoring flag is set exactly when the latest destination line named a sidecar
      (and never before the first destination line). */
  lemma {:induction false} RunTracksSidecar(lines: seq<string>)
    ensures Run(Initial, lines).state.isIgnoringCurrentFile <==> InSidecar(lines)
    decreases |lines|
  {
    if lines != [] {
      var init := lines[..|lines| - 1];
      var line := lines[|lines| - 1];
      RunTracksSidecar(init);
      assert lines == init + [line];
      RunPrefix(Initial, init, line);
      DetectCounts(Run(Initial, init).state, line);
      if IsDestinationLine(line) {
        if IsSidecarDestination(line) {
          assert InSidecar(lines) by {
            assert IsSidecarDestination(lines[|lines| - 1]);
          }
        } else {
          assert !InSidecar(lines) by {
            forall i | 0 <= i < |lines| && IsSidecarDestination(lines[i])
              ensures exists j :: i < j < |lines| && IsDestinationLine(lines[j])
            {
              assert i != |lines| - 1;
              assert IsDestinationLine(lines[|lines| - 1]);
            }
          }
        }
      } else {
        assert InSidecar(lines) <==> InSidecar(init) by {
          if InSidecar(init) {
            var i :| 0 <= i < |init| && IsSidecarDestination(init[i])
                 && forall j :: i < j < |init| ==> !IsDestinationLine(init[j]);
            assert IsSidecarDestination(lines[i]);
            assert forall j :: i < j < |lines| ==> !IsDestinationLine(lines[j]) by {
              forall j | i < j < |lines| ensures !IsDestinationLine(lines[j]) {
                if j < |init| { assert lines[j] == init[j]; }
              }
            }
          }
          if InSidecar(lines) {
            var i :| 0 <= i < |lines| && IsSidecarDestination(lines[i])
                 && forall j :: i < j < |lines| ==> !IsDestinationLine(lines[j]);
            assert i < |init|;
            assert IsSidecarDestination(init[i]);
            assert forall j :: i < j < |init| ==> !IsDestinationLine(init[j]) by {
              forall j | i < j < |init| ensures !IsDestinationLine(init[j]) {
                assert init[j] == lines[j];
              }
            }
          }
        }
      }
    }
  }

  /** The high-water mark is the largest scaled value of the download lines not ignored. */
  lemma {:induction false} RunHighWater(lines: seq<string>)
    ensures Run(Initial, lines).state.maxReportedPercent == HighWater(lines)
    decreases |lines|
  {
    if lines != [] {
      RunHighWater(lines[..|lines| - 1]);
      var d := LastDetection(lines);
      HighWaterStep(lines, d);
    }
  }

  /** The state detection leaves for the last line of a history, described by the reference
      definitions, and the state after the whole history in terms of it. */
  lemma LastDetection(lines: seq<string>) returns (d: ProgressState)
    requires lines != []
    ensures d == DetectMediaFile(Run(Initial, lines[..|lines| - 1]).state, lines[|lines| - 1])
    ensures d.mediaFileCounter == MediaFiles(lines)
    ensures d.isIgnoringCurrentFile == InSidecar(lines)
    ensures d.maxReportedPercent == Run(Initial, lines[..|lines| - 1]).state.maxReportedPercent
    ensures Run(Initial, lines).state == ParseProgress(d, lines[|lines| - 1]).state
  {
    d := DetectMediaFile(Run(Initial, lines[..|lines| - 1]).state, lines[|lines| - 1]);
    ParseKeepsFlags(d, lines[|lines| - 1]);
    RunCountsMediaFiles(lines);
    RunTracksSidecar(lines);
  }

  /** One step of HighWater, given detection's state for the last line. */
  lemma HighWaterStep(lines: seq<string>, d: ProgressState)
    requires lines != []
    requires d.mediaFileCounter == MediaFiles(lines)
    requires d.isIgnoringCurrentFile == InSidecar(lines)
    requires d.maxReportedPercent == HighWater(lines[..|lines| - 1])
    ensures ParseProgress(d, lines[|lines| - 1]).state.maxReportedPercent == HighWater(lines)
  {
    var line := lines[|lines| - 1];
    var init := lines[..|lines| - 1];
    if DownloadPercent(line).None? {
      assert ParseProgress(d, line).state == d;
      assert HighWater(lines) == HighWater(init);
    } else if InSidecar(lines) {
      assert ParseProgress(d, line).state == d;
      assert HighWater(lines) == HighWater(init);
    } else {
      var raw := DownloadPercent(line).value;
      var v := Scaled(MediaFiles(lines), raw);
      assert ParseProgress(d, line).state == DownloadStep(d, raw).0;
      assert HighWater(lines) == if v > HighWater(init) then v else HighWater(init);
    }
  }

  /** ParseProgress changes only the high-water mark. */
  lemma ParseKeepsFlags(s: ProgressState, line: string)
    ensures ParseProgress(s, line).state.mediaFileCounter == s.mediaFileCounter
    ensures ParseProgress(s, line).state.isIgnoringCurrentFile == s.isIgnoringCurrentFile
  {
  }

  /** The high-water mark is never negative. */
  lemma RunNonNegative(lines: seq<string>)
    ensures Run(Initial, lines).state.maxReportedPercent >= 0.0
  {
    RunHighWater(lines);
  }

  /** The state detection leaves for line `i`, in terms of the history before it. */
  lemma DetectionAt(lines: seq<string>, i: nat) returns (d: ProgressState)
    requires i < |lines|
    ensures d == DetectMediaFile(Run(Initial, lines[..i]).state, lines[i])
    ensures d.mediaFileCounter == MediaFiles(lines[..i + 1])
    ensures d.isIgnoringCurrentFile == InSidecar(lines[..i + 1])
    ensures d.maxReportedPercent == HighWater(lines[..i])
    ensures Run(Initial, lines[..i + 1]).state == ParseProgress(d, lines[i]).state
  {
    var upto := lines[..i + 1];
    assert upto[..|upto| - 1] == lines[..i] && upto[|upto| - 1] == lines[i];
    d := LastDetection(upto);
    RunHighWater(lines[..i]);
  }

  /** The value a download line reports is the high-water mark up to and including that line,
      capped at 99. */
  lemma EmissionIsCappedHighWater(lines: seq<string>, i: nat)
    requires i < |lines|
    requires EmissionAt(lines, i).Some?
    ensures var h := HighWater(lines[..i + 1]);
      EmissionAt(lines, i).value == if h > 99.0 then 99.0 else h
  {
    var upto := lines[..i + 1];
    assert upto[..|upto| - 1] == lines[..i] && upto[|upto| - 1] == lines[i];
    var d := DetectionAt(lines, i);
    HighWaterStep(upto, d);
    var raw := DownloadPercent(lines[i]).value;
    assert ParseProgress(d, lines[i]).state == DownloadStep(d, raw).0;
  }

  /** The high-water mark over a longer history is at least that over a shorter one. */
  lemma {:induction false} HighWaterGrows(lines: seq<string>, k: nat)
    requires k <= |lines|
    ensures HighWater(lines[..k]) <= HighWater(lines)
    decreases |lines| - k
  {
    if k < |lines| {
      HighWaterGrows(lines, k + 1);
      assert lines[..k + 1][..k] == lines[..k];
    } else {
      assert lines[..k] == lines;
    }
  }

  /** Every value a download line reports lies in [0, 99]. */
  lemma EmissionInRange(lines: seq<string>, i: nat)
    requires i < |lines|
    requires EmissionAt(lines, i).Some?
    ensures 0.0 <= EmissionAt(lines, i).value <= 99.0
  {
    EmissionIsCappedHighWater(lines, i);
  }

  /** Successive download-line reports never decrease, whatever the raw values do. */
  lemma EmissionsNonDecreasing(lines: seq<string>, i: nat, j: nat)
    requires i < j < |lines|
    requires EmissionAt(lines, i).Some? && EmissionAt(lines, j).Some?
    ensures EmissionAt(lines, i).value <= EmissionAt(lines, j).value
  {
    EmissionIsCappedHighWater(lines, i);
    EmissionIsCappedHighWater(lines, j);
    HighWaterGrows(lines[..j + 1], i + 1);
    assert lines[..j + 1][..i + 1] == lines[..i + 1];
  }

  /** All raw download percentages in the lines are at most 100. */
  predicate RawAtMost100(lines: seq<string>) {
    forall k :: 0 <= k < |lines| && DownloadPercent(lines[k]).Some? ==> DownloadPercent(lines[k]).value <= 100.0
  }

  /** While no second media file has been seen, and the raw percentages stay within 100, the
      high-water mark stays within 80. */
  lemma {:induction false} FirstFileHighWater(lines: seq<string>)
    requires MediaFiles(lines) <= 1
    requires RawAtMost100(lines)
    ensures HighWater(lines) <= 80.0
    decreases |lines|
  {
    if lines != [] {
      var init := lines[..|lines| - 1];
      assert MediaFiles(init) <= MediaFiles(lines);
      assert RawAtMost100(init) by {
        forall k | 0 <= k < |init| && DownloadPercent(init[k]).Some?
          ensures DownloadPercent(init[k]).value <= 100.0
        {
          assert init[k] == lines[k];
        }
      }
      FirstFileHighWater(init);
    }
  }

  /** During the first media file (and before any), download reports lie in [0, 80] when the
      raw percentages do not exceed 100. */
  lemma FirstFileBand(lines: seq<string>, i: nat)
    requires i < |lines|
    requires MediaFiles(lines[..i + 1]) <= 1
    requires RawAtMost100(lines[..i + 1])
    requires EmissionAt(lines, i).Some?
    ensures 0.0 <= EmissionAt(lines, i).value <= 80.0
  {
    EmissionIsCappedHighWater(lines, i);
    FirstFileHighWater(lines[..i + 1]);
  }

  /** After the second media destination line, every download report is at least 80. */
  lemma LaterFileBand(lines: seq<string>, i: nat)
    requires i < |lines|
    requires MediaFiles(lines[..i + 1]) >= 2
    requires EmissionAt(lines, i).Some?
    ensures 80.0 <= EmissionAt(lines, i).value <= 99.0
  {
    var d := DetectionAt(lines, i);
    RunNonNegative(lines[..i]);
    SecondFileBand(Run(Initial, lines[..i]).state, lines[i]);
  }

  /** Every percentage in the reports is in [0, 100]. */
  predicate PercentsInRange(reports: seq<Report>) {
    forall k :: 0 <= k < |reports| && reports[k].Percent? ==> 0.0 <= reports[k].value <= 100.0
  }

  lemma PercentsInRangeConcat(a: seq<Report>, b: seq<Report>)
    requires PercentsInRange(a) && PercentsInRange(b)
    ensures PercentsInRange(a + b)
  {
    forall k | 0 <= k < |a + b| && (a + b)[k].Percent?
      ensures 0.0 <= (a + b)[k].value <= 100.0
    {
      if k < |a| {
        assert (a + b)[k] == a[k];
      } else {
        assert (a + b)[k] == b[k - |a|];
      }
    }
  }

  /** A line's own reports hold percentages in [0, 100] when the high-water mark is not negative. */
  lemma StepPercentsInRange(s: ProgressState, line: string)
    requires s.maxReportedPercent >= 0.0
    ensures PercentsInRange(Step(s, line).reports)
  {
    if DownloadPercent(line).Some? && !DetectMediaFile(s, line).isIgnoringCurrentFile {
      DownloadLineReports(s, line);
    }
  }

  /** Every percentage a download's normaliser reports is in [0, 100]. */
  lemma {:induction false} RunPercentsInRange(lines: seq<string>)
    ensures PercentsInRange(Run(Initial, lines).reports)
    decreases |lines|
  {
    if lines != [] {
      var init := lines[..|lines| - 1];
      RunPercentsInRange(init);
      RunNonNegative(init);
      StepPercentsInRange(Run(Initial, init).state, lines[|lines| - 1]);
      PercentsInRangeConcat(Run(Initial, init).reports, Step(Run(Initial, init).state, lines[|lines| - 1]).reports);
    }
  }

  /** The finalize marker does not raise the high-water mark: after it has reported 100, the
      next download line reports at most 99. */
  lemma FinalizeThenLowerReport(s: ProgressState, marker: string, next: string)
    requires s.maxReportedPercent >= 0.0
    requires IsFinalizeLine(marker) && DownloadPercent(marker).None?
    requires Emission(Step(s, marker).state, next).Some?
    ensures Step(s, marker).reports[|Step(s, marker).reports| - 1] == Percent(100.0)
    ensures Emission(Step(s, marker).state, next).value <= 99.0
  {
    FinalizeLineReports(s, marker);
    DownloadLineReports(Step(s, marker).state, next);
  }
}
