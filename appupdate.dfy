/**
 * The application's own update check (AppUpdateService.cs): the latest release's tag is
 * normalised to a three-part version, compared with the running assembly's version the way
 * `System.Version` compares, and the first ".exe" asset is offered as the installer. Installing
 * then launches that file with the current folder as the target directory.
 */
module AppUpdate {
  import opened Wrappers
  import opened Text
  import opened Releases
  import opened FileNaming

  /** `System.Version`: an undefined build or revision is -1. */
  datatype Version = Version(major: int, minor: int, build: int, revision: int)

  /** The release fields the update check reads (`tag_name`, `body`, `name`, `assets`). A release
      without an "assets" property reads as one with no assets. */
  datatype Release = Release(tagName: string, body: string, name: string, assets: seq<Asset>)

  /** `AppUpdateInfo`; `None` stands for a property left `null`. */
  datatype AppUpdateInfo = AppUpdateInfo(isNewVersionAvailable: bool, latestVersion: Option<string>,
                                         currentVersion: Option<string>, downloadUrl: Option<string>,
                                         releaseNotes: Option<string>, title: Option<string>,
                                         fileName: Option<string>)

  /** What the update check returns when the request, the answer or the tag fails. */
  const NoUpdate := AppUpdateInfo(false, None, None, None, None, None, None)

  const DefaultInstallerName := "NRKLastNed_Setup.exe"

  // ---------------------------------------------------------------------------------------
  // Versions

  /** `Version.CompareTo`: the first component that differs decides. */
  function CompareVersions(v: Version, w: Version): (c: int)
    ensures -1 <= c <= 1
    ensures c == 0 <==> v == w
  {
    if v.major != w.major then (if v.major > w.major then 1 else -1)
    else if v.minor != w.minor then (if v.minor > w.minor then 1 else -1)
    else if v.build != w.build then (if v.build > w.build then 1 else -1)
    else if v.revision != w.revision then (if v.revision > w.revision then 1 else -1)
    else 0
  }

  /** `latest > current`, which .NET evaluates as `current.CompareTo(latest) < 0`. */
  predicate IsNewer(latest: Version, current: Version) {
    CompareVersions(current, latest) < 0
  }

  /** Comparison is antisymmetric and "newer" is a strict order. */
  lemma IsNewerIsStrictOrder(a: Version, b: Version, c: Version)
    ensures CompareVersions(a, b) == -CompareVersions(b, a)
    ensures !IsNewer(a, a)
    ensures IsNewer(a, b) ==> !IsNewer(b, a)
    ensures IsNewer(a, b) && IsNewer(b, c) ==> IsNewer(a, c)
  {
  }

  /** A component of `Version.TryParse`: an `int.TryParse` value that is not negative. */
  function ParseComponent(s: string): (r: Option<int>)
    ensures r.Some? ==> 0 <= r.value <= MaxInt32
  {
    match ParseInt32(s)
    case Some(n) => if n >= 0 then Some(n) else None
    case None => None
  }

  /** `Version.TryParse`: two to four dot-separated components, the missing ones -1. */
  function ParseVersion(s: string): (r: Option<Version>)
    ensures r.Some? ==> 2 <= |Split(s, '.')| <= 4
    ensures r.Some? ==> r.value.major >= 0 && r.value.minor >= 0
    ensures r.Some? ==> (r.value.build == -1 <==> |Split(s, '.')| < 3)
    ensures r.Some? ==> (r.value.revision == -1 <==> |Split(s, '.')| < 4)
  {
    var parts := Split(s, '.');
    if |parts| < 2 || |parts| > 4 then None
    else
      var major := ParseComponent(parts[0]);
      var minor := ParseComponent(parts[1]);
      var build := if |parts| > 2 then ParseComponent(parts[2]) else Some(-1);
      var revision := if |parts| > 3 then ParseComponent(parts[3]) else Some(-1);
      if major.Some? && minor.Some? && build.Some? && revision.Some? then
        Some(Version(major.value, minor.value, build.value, revision.value))
      else None
  }

  /** What the dialog shows as the running version: `v{Major}.{Minor}.{Build}`. */
  function CurrentVersionText(v: Version): string {
    "v" + IntToString(v.major) + "." + IntToString(v.minor) + "." + IntToString(v.build)
  }

  // ---------------------------------------------------------------------------------------
  // Tag normalisation

  predicate IsV(c: char) {
    c == 'v' || c == 'V'
  }

  /** `TrimStart('v', 'V')`: every leading `v` or `V` goes, and nothing else. */
  function TrimLeadingV(s: string): (r: string)
    ensures |r| <= |s| && r == s[|s| - |r|..]
    ensures r == [] || !IsV(r[0])
    ensures forall i :: 0 <= i < |s| - |r| ==> IsV(s[i])
    decreases |s|
  {
    if |s| > 0 && IsV(s[0]) then TrimLeadingV(s[1..]) else s
  }

  /** A tag of two parts whose second part is at least two characters, starts with '0' and
      reads as an integer is rewritten to "{first}.0.{that integer}": "1.03" reads as 1.0.3. */
  function RewriteTwoPart(t: string): string {
    var parts := Split(t, '.');
    if |parts| == 2 && StartsWith(parts[1], "0") && |parts[1]| >= 2 then
      match ParseInt32(parts[1])
      case Some(minorBuild) => parts[0] + ".0." + IntToString(minorBuild)
      case None => t
    else t
  }

  /** Appends ".0" while the tag has fewer than two parts, then once more while it has fewer
      than three. */
  function Pad(t: string): string {
    var t1 := if |Split(t, '.')| < 2 then t + ".0" else t;
    if |Split(t1, '.')| < 3 then t1 + ".0" else t1
  }

  /** The tag the update check hands to `Version.TryParse`. */
  function CleanTag(tag: string): string {
    Pad(RewriteTwoPart(TrimLeadingV(tag)))
  }

  /** Appending ".0" adds one part. */
  lemma AppendZero(t: string)
    ensures |Split(t + ".0", '.')| == |Split(t, '.')| + 1
  {
    SplitConcat(t, "0", '.');
    assert t + ".0" == t + ['.'] + "0";
  }

  /** The padding leaves at least three parts. */
  lemma PadHasThreeParts(t: string)
    ensures |Split(Pad(t), '.')| >= 3
  {
    AppendZero(t);
    var t1 := if |Split(t, '.')| < 2 then t + ".0" else t;
    AppendZero(t1);
  }

  /** A normalised tag always has at least three parts. */
  lemma CleanTagHasThreeParts(tag: string)
    ensures |Split(CleanTag(tag), '.')| >= 3
  {
    PadHasThreeParts(RewriteTwoPart(TrimLeadingV(tag)));
  }

  /** A tag that already has three or more parts once its `v`s are gone is left as it is. */
  lemma CleanTagKeepsLongTags(tag: string)
    requires |Split(TrimLeadingV(tag), '.')| >= 3
    ensures CleanTag(tag) == TrimLeadingV(tag)
  {
  }

  /** The padding never puts a `v` in front: it only appends. */
  lemma PadStartsLikeTag(t: string)
    ensures StartsWith(Pad(t), t)
  {
    var t1 := if |Split(t, '.')| < 2 then t + ".0" else t;
    assert StartsWith(t1, t);
    assert (if |Split(t1, '.')| < 3 then t1 + ".0" else t1)[..|t1|] == t1;
  }

  /** A normalised tag does not start with `v` or `V`. */
  lemma CleanTagHasNoV(tag: string)
    ensures CleanTag(tag) == [] || !IsV(CleanTag(tag)[0])
  {
    RewriteHasNoV(TrimLeadingV(tag));
    PadHasNoV(RewriteTwoPart(TrimLeadingV(tag)));
  }

  /** The rewrite starts with the first part, or with a dot when that part is empty. */
  lemma RewriteHasNoV(t: string)
    requires t == [] || !IsV(t[0])
    ensures RewriteTwoPart(t) == [] || !IsV(RewriteTwoPart(t)[0])
  {
    var r := RewriteTwoPart(t);
    var parts := Split(t, '.');
    SplitFirstIsPrefix(t, '.');
    if r != t {
      assert r == parts[0] + ".0." + IntToString(ParseInt32(parts[1]).value);
      if |parts[0]| > 0 {
        assert r[0] == parts[0][0] == t[0];
      } else {
        assert r[0] == '.';
      }
    }
  }

  /** The padding keeps the first character, or starts with a dot. */
  lemma PadHasNoV(r: string)
    requires r == [] || !IsV(r[0])
    ensures Pad(r) == [] || !IsV(Pad(r)[0])
  {
    PadStartsLikeTag(r);
    var p := Pad(r);
    if r == [] {
      var t1 := if |Split(r, '.')| < 2 then r + ".0" else r;
      assert Split(r, '.') == [""];
      assert t1 == ".0";
      assert p[0] == '.';
    } else {
      assert p[0] == r[0];
    }
  }

  /** A tag with no leading `v` and three or more parts is already normalised. */
  lemma CleanTagFixes(t: string)
    requires t == [] || !IsV(t[0])
    requires |Split(t, '.')| >= 3
    ensures CleanTag(t) == t
  {
    TrimLeadingVKeeps(t);
    RewriteKeepsLongTags(t);
    PadKeepsThreeParts(t);
  }

  /** Without a leading `v` there is nothing to trim. */
  lemma TrimLeadingVKeeps(t: string)
    requires t == [] || !IsV(t[0])
    ensures TrimLeadingV(t) == t
  {
  }

  /** Only a two-part tag is rewritten. */
  lemma RewriteKeepsLongTags(t: string)
    requires |Split(t, '.')| >= 3
    ensures RewriteTwoPart(t) == t
  {
  }

  /** Normalising a normalised tag changes nothing. */
  lemma CleanTagIdempotent(tag: string)
    ensures CleanTag(CleanTag(tag)) == CleanTag(tag)
  {
    CleanTagHasNoV(tag);
    CleanTagHasThreeParts(tag);
    CleanTagFixes(CleanTag(tag));
  }

  /** The parts of a dotted string of dot-free pieces. */
  lemma SplitThree(a: string, b: string, c: string)
    requires forall i :: 0 <= i < |a| ==> a[i] != '.'
    requires forall i :: 0 <= i < |b| ==> b[i] != '.'
    requires forall i :: 0 <= i < |c| ==> c[i] != '.'
    ensures Split(a + "." + b, '.') == [a, b]
    ensures Split(a + "." + b + "." + c, '.') == [a, b, c]
  {
    SplitTwo(a, b);
    SplitTwo(b, c);
    DotsRegroup(a, b, c);
    SplitPrefix(a, b + "." + c, '.');
    assert [a] + [b, c] == [a, b, c];
  }

  lemma DotsRegroup(a: string, b: string, c: string)
    ensures a + "." + b + "." + c == a + ['.'] + (b + "." + c)
  {
  }

  /** The parts of two dot-free pieces joined by a dot. */
  lemma SplitTwo(a: string, b: string)
    requires forall i :: 0 <= i < |a| ==> a[i] != '.'
    requires forall i :: 0 <= i < |b| ==> b[i] != '.'
    ensures Split(a + "." + b, '.') == [a, b]
  {
    SplitNoSeparator(b, '.');
    SplitPrefix(a, b, '.');
    assert a + "." + b == a + ['.'] + b;
  }

  /** A bare major version gets two zero parts: "v1" reads as 1.0.0. */
  lemma CleanTagPadsBareMajor()
    ensures CleanTag("v1") == "1.0.0"
  {
    TrimBareMajor();
    PadBareMajor();
  }

  lemma TrimBareMajor()
    ensures TrimLeadingV("v1") == "1"
  {
    var s := "v1";
    assert IsV(s[0]) && s[1..] == "1";
    assert !IsV("1"[0]);
  }

  lemma PadBareMajor()
    ensures RewriteTwoPart("1") == "1" && Pad("1") == "1.0.0"
  {
    SplitNoSeparator("1", '.');
    AppendZero("1");
    assert "1" + ".0" == "1.0";
    assert "1.0" + ".0" == "1.0.0";
  }

  /** A rendered natural number in the 32-bit range reads back as a component. */
  lemma ParseComponentOf(n: nat)
    requires n <= MaxInt32
    ensures ParseComponent(NatToString(n)) == Some(n)
  {
    ParseNatToString(n);
  }

  /** Three dot-free components that read as numbers make a version without revision. */
  lemma ParseThree(a: string, b: string, c: string)
    requires forall i :: 0 <= i < |a| ==> a[i] != '.'
    requires forall i :: 0 <= i < |b| ==> b[i] != '.'
    requires forall i :: 0 <= i < |c| ==> c[i] != '.'
    requires ParseComponent(a).Some? && ParseComponent(b).Some? && ParseComponent(c).Some?
    ensures ParseVersion(a + "." + b + "." + c)
            == Some(Version(ParseComponent(a).value, ParseComponent(b).value, ParseComponent(c).value, -1))
  {
    SplitThree(a, b, c);
  }

  /** The rewritten tag reads as the first part, 0, and the value of the second part: the
      rewrite exists so that "1.03" compares as the assembly version 1.0.3. */
  lemma ParseRewrittenTag(a: string, n: nat)
    requires forall i :: 0 <= i < |a| ==> a[i] != '.'
    requires ParseComponent(a).Some? && n <= MaxInt32
    ensures ParseVersion(a + ".0." + NatToString(n)) == Some(Version(ParseComponent(a).value, 0, n, -1))
  {
    var s := NatToString(n);
    DigitsHaveNoDot(s);
    assert NatToString(0) == "0";
    ParseComponentOf(0);
    ParseComponentOf(n);
    ParseThree(a, "0", s);
    ZeroMiddle(a, s);
  }

  /** A two-part tag whose second part is a run of two or more digits starting with '0' is
      rewritten to "{first}.0.{value}", whatever `v` was in front, and then left unpadded:
      "v1.03" reads as "1.0.3". */
  lemma CleanTagRewritesLeadingZero(a: string, digits: string)
    requires forall i :: 0 <= i < |a| ==> a[i] != '.'
    requires a == [] || !IsV(a[0])
    requires |digits| >= 2 && digits[0] == '0' && AllDigits(digits)
    requires DigitsValue(digits) <= MaxInt32
    ensures CleanTag(['v'] + a + "." + digits) == a + ".0." + NatToString(DigitsValue(digits))
  {
    var t := a + "." + digits;
    TrimVTag('v', a, digits);
    RewriteLeadingZero(a, digits);
    var r := a + ".0." + NatToString(DigitsValue(digits));
    PadRewritten(a, NatToString(DigitsValue(digits)));
    CleanTagOf(['v'] + a + "." + digits, t, r);
  }

  /** The three normalisation steps, one after the other. */
  lemma CleanTagOf(tag: string, t: string, r: string)
    requires TrimLeadingV(tag) == t && RewriteTwoPart(t) == r && Pad(r) == r
    ensures CleanTag(tag) == r
  {
  }

  /** The rewrite of "{a}.{digits}" when the digits start with '0'. */
  lemma RewriteLeadingZero(a: string, digits: string)
    requires forall i :: 0 <= i < |a| ==> a[i] != '.'
    requires |digits| >= 2 && digits[0] == '0' && AllDigits(digits)
    requires DigitsValue(digits) <= MaxInt32
    ensures RewriteTwoPart(a + "." + digits) == a + ".0." + NatToString(DigitsValue(digits))
  {
    DigitsHaveNoDot(digits);
    SplitTwo(a, digits);
    TrimNumberWhiteDigits(digits);
    assert ParseInt32(digits) == Some(DigitsValue(digits) as int);
  }

  /** A rewritten tag has three parts, so the padding leaves it alone. */
  lemma PadRewritten(a: string, s: string)
    requires forall i :: 0 <= i < |a| ==> a[i] != '.'
    requires AllDigits(s)
    ensures Pad(a + ".0." + s) == a + ".0." + s
  {
    DigitsHaveNoDot(s);
    SplitThree(a, "0", s);
    ZeroMiddle(a, s);
    PadKeepsThreeParts(a + ".0." + s);
  }

  lemma DigitsHaveNoDot(s: string)
    requires AllDigits(s)
    ensures forall i :: 0 <= i < |s| ==> s[i] != '.'
  {
  }

  lemma ZeroMiddle(a: string, s: string)
    ensures a + ".0." + s == a + "." + "0" + "." + s
  {
  }

  /** Padding leaves a tag of three or more parts alone. */
  lemma PadKeepsThreeParts(t: string)
    requires |Split(t, '.')| >= 3
    ensures Pad(t) == t
  {
  }

  /** A two-part tag whose second part has no leading zero is only padded, whatever `v` was in
      front: "V2.10" reads as 2.10.0. */
  lemma CleanTagKeepsMinor(a: string, b: string)
    requires forall i :: 0 <= i < |a| ==> a[i] != '.'
    requires forall i :: 0 <= i < |b| ==> b[i] != '.'
    requires a == [] || !IsV(a[0])
    requires !StartsWith(b, "0") || |b| < 2
    ensures CleanTag(['V'] + a + "." + b) == a + "." + b + ".0"
  {
    var t := a + "." + b;
    TrimVTag('V', a, b);
    SplitTwo(a, b);
    RewriteKeepsTwoParts(t);
    PadTwoParts(t);
  }

  /** One `v` in front of a two-part tag whose first part starts with none. */
  lemma TrimVTag(c: char, a: string, b: string)
    requires IsV(c) && (a == [] || !IsV(a[0]))
    ensures TrimLeadingV([c] + a + "." + b) == a + "." + b
  {
    var t := a + "." + b;
    assert [c] + a + "." + b == [c] + t;
    assert t[0] == if a == [] then '.' else a[0];
    TrimOneV(c, t);
  }

  /** One leading `v` in front of a tag that has none more. */
  lemma TrimOneV(c: char, t: string)
    requires IsV(c) && (t == [] || !IsV(t[0]))
    ensures TrimLeadingV([c] + t) == t
  {
    assert ([c] + t)[1..] == t;
  }

  /** A two-part tag whose second part does not start with '0' is not rewritten. */
  lemma RewriteKeepsTwoParts(t: string)
    requires |Split(t, '.')| == 2
    requires !StartsWith(Split(t, '.')[1], "0") || |Split(t, '.')[1]| < 2
    ensures RewriteTwoPart(t) == t
  {
  }

  /** A two-part tag gets one zero part. */
  lemma PadTwoParts(t: string)
    requires |Split(t, '.')| == 2
    ensures Pad(t) == t + ".0"
  {
  }

  /** The running version, rendered as the dialog shows it and used as a release tag, reads
      back as its first three components and never counts as newer than itself. */
  lemma OwnTagIsNoUpdate(current: Version)
    requires 0 <= current.major <= MaxInt32 && 0 <= current.minor <= MaxInt32
    requires 0 <= current.build <= MaxInt32 && current.revision >= -1
    ensures ParseVersion(CleanTag(CurrentVersionText(current)))
            == Some(Version(current.major, current.minor, current.build, -1))
    ensures !IsNewer(ParseVersion(CleanTag(CurrentVersionText(current))).value, current)
  {
    var a, b, c := NatToString(current.major), NatToString(current.minor), NatToString(current.build);
    DigitsHaveNoDot(a);
    DigitsHaveNoDot(b);
    DigitsHaveNoDot(c);
    var x := a + "." + b + "." + c;
    assert CurrentVersionText(current) == ['v'] + x;
    assert x[0] == a[0];
    TrimOneV('v', x);
    SplitThree(a, b, c);
    RewriteKeepsLongTags(x);
    PadKeepsThreeParts(x);
    ParseComponentOf(current.major);
    ParseComponentOf(current.minor);
    ParseComponentOf(current.build);
    ParseThree(a, b, c);
  }

  // ---------------------------------------------------------------------------------------
  // The update check

  /** An installer is an asset whose name ends in ".exe", in any case. */
  predicate IsInstallerName(name: string) {
    EndsWithIgnoreCase(name, ".exe")
  }

  /** The statements that normalise the tag: trim the `v`s, rewrite a two-part tag with a
      leading zero, then pad. */
  method NormaliseTag(tagName: string) returns (cleanTag: string)
    ensures cleanTag == CleanTag(tagName)
  {
    cleanTag := TrimLeadingV(tagName);
    var parts := Split(cleanTag, '.');
    if |parts| == 2 && StartsWith(parts[1], "0") && |parts[1]| >= 2 {
      var minorBuild := ParseInt32(parts[1]);
      if minorBuild.Some? {
        cleanTag := parts[0] + ".0." + IntToString(minorBuild.value);
      }
    }
    assert cleanTag == RewriteTwoPart(TrimLeadingV(tagName));
    if |Split(cleanTag, '.')| < 2 {
      cleanTag := cleanTag + ".0";
    }
    if |Split(cleanTag, '.')| < 3 {
      cleanTag := cleanTag + ".0";
    }
  }

  /** `CheckForAppUpdatesAsync` once the release answer is in: `None` when the request or the
      JSON fails. The installer is the first ".exe" asset, or "" when there is none; the tag is
      normalised step by step before `Version.TryParse`. */
  method CheckForAppUpdates(answer: Option<Release>, current: Version) returns (info: AppUpdateInfo)
    ensures answer.None? ==> info == NoUpdate
    ensures answer.Some? && ParseVersion(CleanTag(answer.value.tagName)).None? ==> info == NoUpdate
    ensures answer.Some? && ParseVersion(CleanTag(answer.value.tagName)).Some? ==>
      var release := answer.value;
      var installer := FirstAsset(release.assets, IsInstallerName);
      info == AppUpdateInfo(IsNewer(ParseVersion(CleanTag(release.tagName)).value, current),
                            Some(release.tagName), Some(CurrentVersionText(current)),
                            Some(if installer.Some? then installer.value.url else ""),
                            Some(release.body), Some(release.name),
                            Some(if installer.Some? then installer.value.name else ""))
  {
    if answer.None? {
      return NoUpdate;
    }
    var release := answer.value;
    var downloadUrl := "";
    var fileName := "";
    var installer := FindAsset(release.assets, IsInstallerName);
    if installer.Some? {
      downloadUrl := installer.value.url;
      fileName := installer.value.name;
    }
    var cleanTag := NormaliseTag(release.tagName);
    var latest := ParseVersion(cleanTag);
    if latest.None? {
      return NoUpdate;
    }
    info := AppUpdateInfo(IsNewer(latest.value, current), Some(release.tagName), Some(CurrentVersionText(current)),
                          Some(downloadUrl), Some(release.body), Some(release.name), Some(fileName));
  }

  // ---------------------------------------------------------------------------------------
  // Installing

  /** What `PerformAppUpdateAsync` does: show that there is no installer; or, when the download
      or the launch fails, show the error and delete the installer; or launch it and shut down. */
  datatype InstallStep = NoInstallerMessage | InstallFailed(installerPath: string)
                       | Launch(installerPath: string, arguments: string)

  /** Where the installer is saved: its asset name, or the default name when that is `null`. */
  function InstallerPath(tempPath: string, fileName: Option<string>): (r: string)
    ensures fileName.None? && tempPath != "" ==> EndsWith(r, DefaultInstallerName)
    ensures fileName.Some? ==> EndsWith(r, fileName.value)
  {
    Combine(tempPath, fileName.GetOr(DefaultInstallerName))
  }

  /** The folder the program runs from, without one trailing backslash. */
  function InstallDirectory(dir: string): (r: string)
    ensures r == dir || r + "\\" == dir
    ensures EndsWith(dir, "\\") ==> |r| == |dir| - 1
    ensures !EndsWith(dir, "\\\\") ==> !EndsWith(r, "\\")
  {
    if EndsWith(dir, "\\") then dir[..|dir| - 1] else dir
  }

  /** The installer's arguments: the target directory, quoted. */
  function InstallArguments(dir: string): string {
    "/DIR=\"" + InstallDirectory(dir) + "\""
  }

  /** The closing quote of `/DIR="..."` is never escaped by a backslash before it unless the
      folder ends with two of them. */
  lemma InstallArgumentsQuoteClosed(dir: string)
    requires !EndsWith(dir, "\\\\")
    ensures var args := InstallArguments(dir);
      StartsWith(args, "/DIR=\"") && EndsWith(args, "\"") && args[|args| - 2] != '\\'
  {
    var d := InstallDirectory(dir);
    var args := InstallArguments(dir);
    if |d| > 0 {
      assert args[|args| - 2] == d[|d| - 1];
    } else {
      assert args[|args| - 2] == '"';
    }
  }

  /** `PerformAppUpdateAsync(info)`: `downloaded` says whether fetching and writing the
      installer worked, `launched` whether starting it did. */
  function PerformAppUpdate(info: AppUpdateInfo, tempPath: string, exeDirectory: string,
                            downloaded: bool, launched: bool): (r: InstallStep)
    ensures r.NoInstallerMessage? <==> (info.downloadUrl.None? || info.downloadUrl == Some(""))
    ensures r.InstallFailed? ==> r.installerPath == InstallerPath(tempPath, info.fileName)
    ensures r.Launch? <==> (info.downloadUrl.Some? && info.downloadUrl.value != "" && downloaded && launched)
    ensures r.Launch? ==> r.installerPath == InstallerPath(tempPath, info.fileName)
                          && r.arguments == InstallArguments(exeDirectory)
  {
    if info.downloadUrl.None? || info.downloadUrl.value == "" then NoInstallerMessage
    else
      var installerPath := InstallerPath(tempPath, info.fileName);
      if downloaded && launched then Launch(installerPath, InstallArguments(exeDirectory))
      else InstallFailed(installerPath)
  }

  /** The failed check offers nothing to install. */
  lemma NoUpdateInstallsNothing(tempPath: string, exeDirectory: string, downloaded: bool, launched: bool)
    ensures PerformAppUpdate(NoUpdate, tempPath, exeDirectory, downloaded, launched) == NoInstallerMessage
  {
  }
}
