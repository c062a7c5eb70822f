/**
 * What the analysis of a URL derives from the downloader's output: the list of heights offered
 * (from the `-F` format table), the resolution an item starts with, and an item's title and
 * season/episode tag (from one entry of the `-J` document).
 */
module Analysis {
  import opened Wrappers
  import opened Text
  import opened Progress
  import opened Items

  const Best := "best"

  // ---------------------------------------------------------------------------------------
  // Heights in the format table: Regex.Match(line, @"\s(\d+x\d+)\s")

  /** A match of `\s(\d+x\d+)\s` starting at the first character of `t`, with its group. The
      digit runs are greedy, and giving a digit back leaves a digit where an "x" or a white
      space character is needed, so the maximal runs decide the match. */
  function TokenAt(t: string): (r: Option<string>)
    ensures r.Some? ==> |r.value| >= 3
  {
    if |t| == 0 || !IsWhiteSpace(t[0]) then None
    else
      var w := DigitRun(t[1..]);
      if w == 0 || 1 + w >= |t| || t[1 + w] != 'x' then None
      else
        var h := DigitRun(t[2 + w..]);
        if h == 0 || 2 + w + h >= |t| || !IsWhiteSpace(t[2 + w + h]) then None
        else Some(t[1..2 + w + h])
  }

  /** The group of the leftmost match in the line, if any. */
  function LineToken(line: string): Option<string>
    decreases |line|
  {
    if |line| == 0 then None
    else match TokenAt(line)
      case Some(g) => Some(g)
      case None => LineToken(line[1..])
  }

  /** The height a line contributes: the second part of the group split at "x". */
  function LineHeight(line: string): Option<string> {
    match LineToken(line)
    case Some(g) =>
      var parts := Split(g, 'x');
      if |parts| == 2 then Some(parts[1]) else None
    case None => None
  }

  /** The heights the lines contribute. */
  function HeightsIn(lines: seq<string>): set<string>
    decreases |lines|
  {
    if lines == [] then {}
    else
      var last := lines[|lines| - 1];
      HeightsIn(lines[..|lines| - 1]) + (if LineHeight(last).Some? then {LineHeight(last).value} else {})
  }

  /** The table's lines; none when the process could not be run. */
  function OutputLines(output: Option<string>): seq<string> {
    match output
    case Some(text) => Split(text, '\n')
    case None => []
  }

  /** Every group the pattern captures is "W" "x" "H" with both runs of digits; `k` is where
      the "x" stands. */
  lemma TokenShape(t: string) returns (k: nat)
    requires TokenAt(t).Some?
    ensures var g := TokenAt(t).value;
      0 < k < |g| - 1 && g[k] == 'x' && AllDigits(g[..k]) && AllDigits(g[k + 1..])
  {
    var w := DigitRun(t[1..]);
    var h := DigitRun(t[2 + w..]);
    var g := t[1..2 + w + h];
    assert g[..w] == t[1..][..w];
    assert g[w + 1..] == t[2 + w..][..h];
    assert g[w] == 'x';
    k := w;
  }

  lemma {:induction false} LineTokenShape(line: string) returns (k: nat)
    requires LineToken(line).Some?
    ensures var g := LineToken(line).value;
      0 < k < |g| - 1 && g[k] == 'x' && AllDigits(g[..k]) && AllDigits(g[k + 1..])
    decreases |line|
  {
    if TokenAt(line).Some? {
      k := TokenShape(line);
    } else {
      k := LineTokenShape(line[1..]);
    }
  }

  /** Splitting "W" "x" "H" at "x", where neither run holds an "x", gives the two runs. */
  lemma SplitAtX(g: string, k: nat)
    requires k < |g| && g[k] == 'x'
    requires forall i :: 0 <= i < |g| && i != k ==> g[i] != 'x'
    ensures Split(g, 'x') == [g[..k], g[k + 1..]]
  {
    var a, b := g[..k], g[k + 1..];
    assert g == a + ['x'] + b;
    SplitPrefix(a, b, 'x');
    SplitNoSeparator(b, 'x');
  }

  /** Every token that matches gives a height, and the height is the run of digits after its
      "x". */
  lemma LineHeightIsDigits(line: string)
    requires LineToken(line).Some?
    ensures LineHeight(line).Some?
    ensures |LineHeight(line).value| >= 1 && AllDigits(LineHeight(line).value)
    ensures EndsWith(LineToken(line).value, "x" + LineHeight(line).value)
  {
    var g := LineToken(line).value;
    var k := LineTokenShape(line);
    assert forall i :: 0 <= i < |g| && i != k ==> g[i] != 'x' by {
      forall i | 0 <= i < |g| && i != k ensures g[i] != 'x' {
        if i < k { assert g[i] == g[..k][i]; } else { assert g[i] == g[k + 1..][i - k - 1]; }
      }
    }
    SplitAtX(g, k);
    assert g[|g| - |"x" + g[k + 1..]|..] == "x" + g[k + 1..];
  }

  // ---------------------------------------------------------------------------------------
  // Ordering

  /** The sort key of the comparison: "best" before everything, the rest by the number
      `int.TryParse` reads (0 when it reads none). */
  function Rank(s: string): (r: int)
    ensures r > MaxInt32 <==> s == Best
  {
    if s == Best then MaxInt32 + 1 else ParseInt32(s).GetOr(0)
  }

  predicate Descending(s: seq<string>) {
    forall k, l :: 0 <= k < l < |s| ==> Rank(s[k]) >= Rank(s[l])
  }

  predicate Distinct(s: seq<string>) {
    forall k, l :: 0 <= k < l < |s| ==> s[k] != s[l]
  }

  /** `List.Sort` with a comparison that orders by descending `key`, as an insertion sort: the
      list ends in that order and holds the same elements. */
  method SortDescending(a: array<string>, key: string -> int)
    modifies a
    ensures forall k, l :: 0 <= k < l < a.Length ==> key(a[k]) >= key(a[l])
    ensures multiset(a[..]) == multiset(old(a[..]))
  {
    var i := 0;
    while i < a.Length
      invariant 0 <= i <= a.Length
      invariant forall k, l :: 0 <= k < l < i ==> key(a[k]) >= key(a[l])
      invariant multiset(a[..]) == multiset(old(a[..]))
    {
      Insert(a, i, key);
      i := i + 1;
    }
  }

  /** Moves `a[i]` left past the smaller entries before it, so that `a[..i + 1]` is in order. */
  method Insert(a: array<string>, i: nat, key: string -> int)
    requires i < a.Length
    requires forall k, l :: 0 <= k < l < i ==> key(a[k]) >= key(a[l])
    modifies a
    ensures forall k, l :: 0 <= k < l <= i ==> key(a[k]) >= key(a[l])
    ensures multiset(a[..]) == multiset(old(a[..]))
  {
    var j := i;
    while j > 0 && key(a[j - 1]) < key(a[j])
      invariant 0 <= j <= i
      invariant forall k, l :: 0 <= k < l <= i && k != j && l != j ==> key(a[k]) >= key(a[l])
      invariant forall k, l :: 0 <= k < j < l <= i ==> key(a[k]) >= key(a[l])
      invariant forall l :: j < l <= i ==> key(a[j]) >= key(a[l])
      invariant multiset(a[..]) == multiset(old(a[..]))
    {
      Swap(a, j - 1, j);
      j := j - 1;
    }
  }

  /** Exchanges two entries. */
  method Swap(a: array<string>, x: nat, y: nat)
    requires x < y < a.Length
    modifies a
    ensures a[x] == old(a[y]) && a[y] == old(a[x])
    ensures forall k :: 0 <= k < a.Length && k != x && k != y ==> a[k] == old(a[k])
    ensures multiset(a[..]) == multiset(old(a[..]))
  {
    a[x], a[y] := a[y], a[x];
  }

  lemma {:induction false} DistinctCount(t: seq<string>, x: string)
    requires Distinct(t)
    ensures multiset(t)[x] <= 1
    decreases |t|
  {
    if |t| > 0 {
      var init := t[..|t| - 1];
      assert t == init + [t[|t| - 1]];
      DistinctCount(init, x);
      if t[|t| - 1] == x {
        assert x !in init;
      }
    }
  }

  /** A list with the same elements, counted with multiplicity, as a list without repeats has
      no repeats either. */
  lemma SameElementsDistinct(s: seq<string>, t: seq<string>)
    requires Distinct(t) && multiset(s) == multiset(t)
    ensures Distinct(s)
  {
    forall k, l | 0 <= k < l < |s| ensures s[k] != s[l] {
      if s[k] == s[l] {
        assert s == s[..l] + [s[l]] + s[l + 1..];
        assert s[k] in s[..l];
        assert multiset(s)[s[k]] >= 2;
        DistinctCount(t, s[k]);
      }
    }
  }

  /** The heights of the format table, "best" first and the rest in descending numeric order,
      each once. `output` is what the `-F` run printed, None when the run failed. */
  method GetResolutions(output: Option<string>) returns (r: seq<string>)
    ensures |r| >= 1 && r[0] == Best
    ensures Distinct(r)
    ensures forall x :: x in r <==> x == Best || x in HeightsIn(OutputLines(output))
    ensures Descending(r)
  {
    var found := CollectHeights(OutputLines(output));
    r := OrderResolutions(found);
  }

  /** The loop over the lines: "best", then each new height in the order first met. */
  method CollectHeights(lines: seq<string>) returns (found: seq<string>)
    ensures |found| >= 1 && found[0] == Best
    ensures Distinct(found)
    ensures forall x :: x in found <==> x == Best || x in HeightsIn(lines)
  {
    found := [Best];
    var i := 0;
    while i < |lines|
      invariant 0 <= i <= |lines|
      invariant |found| >= 1 && found[0] == Best
      invariant Distinct(found)
      invariant forall x :: x in found <==> x == Best || x in HeightsIn(lines[..i])
    {
      assert lines[..i + 1][..i] == lines[..i];
      match LineToken(lines[i]) {
        case Some(g) =>
          var parts := Split(g, 'x');
          if |parts| == 2 && parts[1] !in found {
            found := found + [parts[1]];
          }
        case None =>
      }
      i := i + 1;
    }
    assert lines[..i] == lines;
  }

  /** The `OrderByDescending` over a list holding "best": the same entries, in descending
      order, "best" first. */
  method OrderResolutions(found: seq<string>) returns (r: seq<string>)
    requires Best in found && Distinct(found)
    ensures |r| >= 1 && r[0] == Best
    ensures Distinct(r)
    ensures forall x :: x in r <==> x in found
    ensures Descending(r)
  {
    var a := new string[|found|](k requires 0 <= k < |found| => found[k]);
    assert a[..] == found;
    SortDescending(a, Rank);
    r := a[..];
    SameElementsDistinct(r, found);
    assert forall x :: x in r <==> x in multiset(r);
    assert forall x :: x in found <==> x in multiset(found);
    assert Best in r;
    var b :| 0 <= b < |r| && r[b] == Best;
    assert Rank(r[0]) >= Rank(r[b]);
  }

  // ---------------------------------------------------------------------------------------
  // ApplyResolutions

  /** The index of the first entry whose trimmed form is `def`. */
  function FirstTrimmed(list: seq<string>, def: string): (r: Option<nat>)
    ensures r.Some? ==> (r.value < |list| && Trim(list[r.value]) == def
      && forall j :: 0 <= j < r.value ==> Trim(list[j]) != def)
    ensures r.None? ==> forall j :: 0 <= j < |list| ==> Trim(list[j]) != def
  {
    IndexOf(Trimmed(list), def)
  }

  /** Each entry trimmed. */
  function Trimmed(list: seq<string>): (r: seq<string>)
    ensures |r| == |list| && forall j :: 0 <= j < |list| ==> r[j] == Trim(list[j])
  {
    seq(|list|, j requires 0 <= j < |list| => Trim(list[j]))
  }

  /** The index of the first occurrence of `x`. */
  function IndexOf(s: seq<string>, x: string): (r: Option<nat>)
    ensures r.Some? ==> (r.value < |s| && s[r.value] == x && forall j :: 0 <= j < r.value ==> s[j] != x)
    ensures r.None? ==> forall j :: 0 <= j < |s| ==> s[j] != x
    decreases |s|
  {
    if |s| == 0 then None
    else if s[0] == x then Some(0)
    else match IndexOf(s[1..], x)
      case Some(i) => Some(i + 1)
      case None => None
  }

  /** The resolution an item starts with: the first entry equal, after trimming, to the trimmed
      default; otherwise the first entry; "best" for an empty list. */
  function ChooseResolution(list: seq<string>, defaultResolution: string): (r: string)
    ensures (exists j :: 0 <= j < |list| && Trim(list[j]) == Trim(defaultResolution)) ==>
      Trim(r) == Trim(defaultResolution) && r in list
    ensures (forall j :: 0 <= j < |list| ==> Trim(list[j]) != Trim(defaultResolution)) ==>
      r == if |list| > 0 then list[0] else Best
  {
    match FirstTrimmed(list, Trim(defaultResolution))
    case Some(i) => list[i]
    case None => if |list| > 0 then list[0] else Best
  }

  /** The chosen entry is the first one that matches: no earlier entry matches. */
  lemma ChooseResolutionIsFirst(list: seq<string>, defaultResolution: string, j: nat)
    requires j < |list| && Trim(list[j]) == Trim(defaultResolution)
    ensures exists i :: (0 <= i <= j && list[i] == ChooseResolution(list, defaultResolution)
      && forall k :: 0 <= k < i ==> Trim(list[k]) != Trim(defaultResolution))
  {
    var i := FirstTrimmed(list, Trim(defaultResolution)).value;
    assert i <= j;
  }

  /** ApplyResolutions: appends the list to the item's resolutions and selects the default. */
  method ApplyResolutions(item: DownloadItem, resolutions: seq<string>, defaultResolution: string)
    modifies item
    ensures item.availableResolutions == old(item.availableResolutions) + resolutions
    ensures item.selectedResolution == ChooseResolution(item.availableResolutions, defaultResolution)
    ensures item.url == old(item.url) && item.title == old(item.title)
    ensures item.seasonEpisode == old(item.seasonEpisode) && item.status == old(item.status)
    ensures item.progress == old(item.progress) && item.isSelected == old(item.isSelected)
    ensures item.selectedLanguage == old(item.selectedLanguage)
  {
    var i := 0;
    while i < |resolutions|
      invariant 0 <= i <= |resolutions|
      invariant item.availableResolutions == old(item.availableResolutions) + resolutions[..i]
      invariant item.url == old(item.url) && item.title == old(item.title)
      invariant item.seasonEpisode == old(item.seasonEpisode) && item.status == old(item.status)
      invariant item.progress == old(item.progress) && item.isSelected == old(item.isSelected)
      invariant item.selectedLanguage == old(item.selectedLanguage)
    {
      item.availableResolutions := item.availableResolutions + [resolutions[i]];
      i := i + 1;
    }
    assert resolutions[..i] == resolutions;
    item.selectedResolution := ChooseResolution(item.availableResolutions, defaultResolution);
  }

  // ---------------------------------------------------------------------------------------
  // ParseJsonEntry

  /** The properties of one entry of the `-J` document that the analysis reads. A number is
      held as its JSON text, as `JsonElement.ToString()` gives it. */
  datatype JsonEntry = JsonEntry(
    title: Option<string>,
    url: Option<string>,
    seasonNumber: Option<string>,
    episodeNumber: Option<string>,
    series: Option<string>)

  /** The fields of the item an entry becomes; its status is "Klar" and its progress 0. */
  datatype EntryInfo = EntryInfo(url: string, title: string, seasonEpisode: string)

  const UnknownTitle := "Ukjent"

  /** The class `[\s-–]`: white space, a hyphen or an en dash. */
  predicate IsDashOrSpace(c: char) {
    IsWhiteSpace(c) || c == '-' || c == '\U{2013}'
  }

  /** `Regex.Replace(s, @"^[\s-–]+", "")`: drops leading white space, hyphens and en dashes. */
  function StripLeadingDashes(s: string): (r: string)
    ensures |r| <= |s| && r == s[|s| - |r|..]
    ensures r == [] || !IsDashOrSpace(r[0])
    decreases |s|
  {
    if |s| > 0 && IsDashOrSpace(s[0]) then StripLeadingDashes(s[1..]) else s
  }

  /** Everything dropped in front is white space, a hyphen or an en dash. */
  lemma {:induction false} StripLeadingDashesDrops(s: string)
    ensures forall i :: 0 <= i < |s| - |StripLeadingDashes(s)| ==> IsDashOrSpace(s[i])
    decreases |s|
  {
    if |s| > 0 && IsDashOrSpace(s[0]) {
      StripLeadingDashesDrops(s[1..]);
      assert forall i :: 0 < i < |s| ==> s[i] == s[1..][i - 1];
    }
  }

  /** Dashes and white space in front of a part that does not start with one are dropped, and
      only they. */
  lemma StripLeadingDashesOf(p: string, rest: string)
    requires forall k :: 0 <= k < |p| ==> IsDashOrSpace(p[k])
    requires rest == [] || !IsDashOrSpace(rest[0])
    ensures StripLeadingDashes(p + rest) == rest
  {
    var s := p + rest;
    var r := StripLeadingDashes(s);
    StripLeadingDashesDrops(s);
    var m := |s| - |r|;
    assert forall k :: 0 <= k < |p| ==> s[k] == p[k];
    assert rest != [] ==> s[|p|] == rest[0];
    assert r != [] ==> r[0] == s[m];
    assert m == |p|;
    assert s[|p|..] == rest;
  }

  /** Length of the match of `^\d+\.\s+` at the start of `s`, 0 when there is none. */
  function NumberingLength(s: string): (n: nat)
    ensures n <= |s|
  {
    var d := DigitRun(s);
    if d == 0 || d >= |s| || s[d] != '.' then 0
    else
      var w := WhiteRunAt(s[d + 1..]);
      if w == 0 then 0 else d + 1 + w
  }

  /** `s[..n]` matches `^\d+\.\s+` greedily: `d` digits, a dot, then all the white space that
      follows it. */
  predicate IsNumbering(s: string, d: nat, n: nat) {
    0 < d < n - 1 && n <= |s| && AllDigits(s[..d]) && s[d] == '.'
    && AllWhite(s[d + 1..n]) && (n < |s| ==> !IsWhiteSpace(s[n]))
  }

  /** A numbering that is found is the run of digits, a dot, and the longest run of white space
      after it. */
  lemma NumberingFound(s: string)
    requires NumberingLength(s) > 0
    ensures IsNumbering(s, DigitRun(s), NumberingLength(s))
  {
    var d, w := NumberingParts(s);
    NumberingMatch(s, d, w);
  }

  /** The parts a found numbering is made of: `d` digits, a dot and `w` white space. */
  lemma NumberingParts(s: string) returns (d: nat, w: nat)
    requires NumberingLength(s) > 0
    ensures d == DigitRun(s) && 0 < d < |s| && s[d] == '.'
    ensures w == WhiteRunAt(s[d + 1..]) && w > 0 && NumberingLength(s) == d + 1 + w
  {
    d := DigitRun(s);
    w := WhiteRunAt(s[d + 1..]);
  }

  /** When no numbering is found, no dot after leading digits is followed by white space. */
  lemma NumberingAbsent(s: string)
    requires NumberingLength(s) == 0
    ensures forall e :: 0 < e < |s| && AllDigits(s[..e]) && s[e] == '.' ==>
              e + 1 == |s| || !IsWhiteSpace(s[e + 1])
  {
    DigitsBeforeDot(s);
  }

  /** The run of digits is the only one a dot can follow. */
  lemma DigitsBeforeDot(s: string)
    ensures forall e :: 0 < e < |s| && AllDigits(s[..e]) && s[e] == '.' ==> e == DigitRun(s)
  {
    var d := DigitRun(s);
    forall e | 0 < e < |s| && AllDigits(s[..e]) && s[e] == '.'
      ensures e == d
    {
      assert forall k :: 0 <= k < d ==> s[..d][k] == s[k];
      assert forall k :: 0 <= k < e ==> s[..e][k] == s[k];
    }
  }

  /** The white space after the dot is `w` characters long. */
  lemma NumberingMatch(s: string, d: nat, w: nat)
    requires d == DigitRun(s) && 0 < d < |s| && s[d] == '.'
    requires w == WhiteRunAt(s[d + 1..])
    ensures w > 0 ==> IsNumbering(s, d, d + 1 + w)
  {
    var t := s[d + 1..];
    WhiteRunIsWhite(t);
    assert t[..w] == s[d + 1..d + 1 + w];
    assert d + 1 + w < |s| ==> t[w] == s[d + 1 + w];
  }

  /** Every character is white space. */
  predicate AllWhite(t: string) {
    forall k :: 0 <= k < |t| ==> IsWhiteSpace(t[k])
  }

  lemma WhiteRunIsWhite(t: string)
    ensures AllWhite(t[..WhiteRunAt(t)])
  {
    var w := WhiteRunAt(t);
    assert forall k :: 0 <= k < w ==> t[..w][k] == t[k];
  }

  /** Length of the longest prefix of `s` made of white space. */
  function WhiteRunAt(s: string): (n: nat)
    ensures n <= |s|
    ensures forall i :: 0 <= i < n ==> IsWhiteSpace(s[i])
    ensures n < |s| ==> !IsWhiteSpace(s[n])
    decreases |s|
  {
    if |s| > 0 && IsWhiteSpace(s[0]) then WhiteRunAt(s[1..]) + 1 else 0
  }

  /** `Regex.Replace(s, @"^\d+\.\s+", "")`: drops a leading "12. " style numbering. */
  function StripNumbering(s: string): (r: string)
    ensures |r| <= |s| && r == s[|s| - |r|..]
  {
    s[NumberingLength(s)..]
  }

  /** A numbering "12. " in front of a part that does not start with white space is dropped. */
  lemma StripNumberingOf(digits: string, white: string, rest: string)
    requires digits != [] && AllDigits(digits)
    requires white != [] && AllWhite(white)
    requires rest == [] || !IsWhiteSpace(rest[0])
    ensures StripNumbering(digits + "." + white + rest) == rest
  {
    var s := digits + "." + white + rest;
    NumberingSlices(digits, white, rest);
    DigitRunOf(digits, "." + white + rest);
    WhiteRunOf(white, rest);
    NumberingLengthOf(s, |digits|, |white|);
  }

  /** How `digits + "." + white + rest` splits into its parts. */
  lemma NumberingSlices(digits: string, white: string, rest: string)
    ensures var s := digits + "." + white + rest;
      s == digits + ("." + white + rest) && s[|digits|] == '.'
      && s[|digits| + 1..] == white + rest && s[|digits| + 1 + |white|..] == rest
  {
    var s := digits + "." + white + rest;
    assert s == digits + ("." + white + rest);
    assert s[|digits| + 1..] == white + rest;
    assert s[|digits| + 1 + |white|..] == rest;
  }

  /** The numbering length from its parts. */
  lemma NumberingLengthOf(s: string, d: nat, w: nat)
    requires d == DigitRun(s) && 0 < d < |s| && s[d] == '.'
    requires w == WhiteRunAt(s[d + 1..]) && w > 0
    ensures NumberingLength(s) == d + 1 + w
  {
  }

  /** The digits in front of a part that does not start with a digit are the run of digits. */
  lemma DigitRunOf(digits: string, t: string)
    requires AllDigits(digits)
    requires t == [] || !IsDigit(t[0])
    ensures DigitRun(digits + t) == |digits|
  {
    var x := digits + t;
    var n := DigitRun(x);
    assert forall k :: 0 <= k < |digits| ==> x[k] == digits[k];
    assert t != [] ==> x[|digits|] == t[0];
    assert forall k :: 0 <= k < n ==> x[..n][k] == x[k];
    assert n == |digits|;
  }

  /** The white space in front of a part that does not start with white space is the run of
      white space. */
  lemma WhiteRunOf(white: string, rest: string)
    requires AllWhite(white)
    requires rest == [] || !IsWhiteSpace(rest[0])
    ensures WhiteRunAt(white + rest) == |white|
  {
    var x := white + rest;
    assert forall k :: 0 <= k < |white| ==> x[k] == white[k];
    assert rest != [] ==> x[|white|] == rest[0];
  }

  /** A title that does not start with a digit keeps its beginning. */
  lemma StripNumberingKeeps(s: string)
    requires s == [] || !IsDigit(s[0])
    ensures StripNumbering(s) == s
  {
  }

  /** The title without the series name and the numbering in front of it. */
  function CleanTitle(title: string, series: string): (r: string) {
    StripNumbering(WithoutSeries(title, series))
  }

  /** The title without the series name in front of it, and the white space and dashes after
      the name; the title itself when it does not start with the series name. */
  function WithoutSeries(title: string, series: string): string {
    if series != "" && StartsWithIgnoreCase(title, series)
    then StripLeadingDashes(Trim(title[|series|..]))
    else title
  }

  /** The tag "SxxEyy", both numbers with at least two digits. */
  function SeasonEpisodeTag(season: int, episode: int): string {
    "S" + Pad2(season) + "E" + Pad2(episode)
  }

  /** ParseJsonEntry. Fails (`int.Parse` throws) when both numbers are present and one of them
      is not a 32-bit integer. */
  function ParseJsonEntry(entry: JsonEntry, originalUrl: string): (r: Result<EntryInfo, string>)
    ensures r.Failure? <==> (entry.seasonNumber.GetOr("") != "" && entry.episodeNumber.GetOr("") != ""
      && (ParseInt32(entry.seasonNumber.value).None? || ParseInt32(entry.episodeNumber.value).None?))
    ensures r.Success? ==> r.value.url == entry.url.GetOr(originalUrl)
  {
    var title := entry.title.GetOr(UnknownTitle);
    var url := entry.url.GetOr(originalUrl);
    var season := entry.seasonNumber.GetOr("");
    var episode := entry.episodeNumber.GetOr("");
    var series := entry.series.GetOr("");
    var cleanTitle := CleanTitle(title, series);
    if season != "" && episode != "" then
      match (ParseInt32(season), ParseInt32(episode))
      case (Some(s), Some(e)) => Success(EntryInfo(url, series + " - " + cleanTitle, SeasonEpisodeTag(s, e)))
      case _ => Failure("FormatException")
    else Success(EntryInfo(url, cleanTitle, ""))
  }

  /** Infixes of infixes are infixes. */
  lemma InfixTrans(a: string, b: string, c: string)
    requires IsInfix(a, b) && IsInfix(b, c)
    ensures IsInfix(a, c)
  {
    var i :| 0 <= i <= |b| - |a| && b[i..][..|a|] == a;
    var j :| 0 <= j <= |c| - |b| && c[j..][..|b|] == b;
    forall k | 0 <= k < |a|
      ensures c[j + i..][..|a|][k] == a[k]
    {
      assert a[k] == b[i..][..|a|][k] == b[i + k];
      assert b[i + k] == c[j..][..|b|][i + k] == c[j + i + k];
    }
    assert c[j + i..][..|a|] == a;
  }

  lemma SuffixIsInfix(a: string, b: string)
    requires |a| <= |b| && a == b[|b| - |a|..]
    ensures IsInfix(a, b)
  {
    assert b[|b| - |a|..][..|a|] == a;
  }

  /** The cleaned title is a contiguous part of the title. */
  lemma CleanTitleIsInfix(title: string, series: string)
    ensures IsInfix(CleanTitle(title, series), title)
  {
    var t := WithoutSeries(title, series);
    WithoutSeriesIsInfix(title, series);
    SuffixIsInfix(StripNumbering(t), t);
    InfixTrans(StripNumbering(t), t, title);
  }

  /** The title without its series name is a contiguous part of the title. */
  lemma WithoutSeriesIsInfix(title: string, series: string)
    ensures IsInfix(WithoutSeries(title, series), title)
  {
    var t := WithoutSeries(title, series);
    if series != "" && StartsWithIgnoreCase(title, series) {
      var rest := title[|series|..];
      SuffixIsInfix(rest, title);
      var trimmed := Trim(rest);
      InfixTrans(trimmed, rest, title);
      SuffixIsInfix(t, trimmed);
      InfixTrans(t, trimmed, title);
    } else {
      SuffixIsInfix(t, title);
    }
  }

  /** A title that starts with the series name, in any case, loses the name and the white space
      and dashes after it. */
  lemma WithoutSeriesDrops(name: string, sep: string, rest: string, series: string)
    requires series != "" && |name| == |series| && EqualsIgnoreCase(name, series)
    requires forall k :: 0 <= k < |sep| ==> IsDashOrSpace(sep[k])
    requires rest != [] && !IsDashOrSpace(rest[0]) && !IsWhiteSpace(rest[|rest| - 1])
    ensures WithoutSeries(name + sep + rest, series) == rest
  {
    SeriesPrefix(name, sep + rest, series);
    assert name + sep + rest == name + (sep + rest);
    TrimDashed(sep, rest);
  }

  /** After a series name, the cleaned title is computed from the rest alone. */
  lemma SeriesPrefix(name: string, x: string, series: string)
    requires series != "" && |name| == |series| && EqualsIgnoreCase(name, series)
    ensures WithoutSeries(name + x, series) == StripLeadingDashes(Trim(x))
  {
    assert (name + x)[..|series|] == name;
    assert (name + x)[|series|..] == x;
  }

  /** Trimming and dropping the dashes of "sep + rest" leaves the rest. */
  lemma TrimDashed(sep: string, rest: string)
    requires forall k :: 0 <= k < |sep| ==> IsDashOrSpace(sep[k])
    requires rest != [] && !IsDashOrSpace(rest[0]) && !IsWhiteSpace(rest[|rest| - 1])
    ensures StripLeadingDashes(Trim(sep + rest)) == rest
  {
    var i := TrimAfterSeries(sep, rest);
    assert forall k :: 0 <= k < |sep[i..]| ==> sep[i..][k] == sep[i + k];
    StripLeadingDashesOf(sep[i..], rest);
  }

  /** Trimming "sep + rest" drops some of the separator and nothing of the rest. */
  lemma TrimAfterSeries(sep: string, rest: string) returns (i: nat)
    requires forall k :: 0 <= k < |sep| ==> IsDashOrSpace(sep[k])
    requires rest != [] && !IsDashOrSpace(rest[0]) && !IsWhiteSpace(rest[|rest| - 1])
    ensures i <= |sep| && Trim(sep + rest) == sep[i..] + rest
  {
    var x := sep + rest;
    i := WhiteRunAt(x);
    assert x[|sep|] == rest[0] && !IsWhiteSpace(x[|sep|]);
    WhiteRunStops(x, |sep|);
    assert x[|x| - 1] == rest[|rest| - 1];
    TrimIsSpan(x, i, |x|);
    SliceOfConcat(sep, rest, i);
  }

  /** The run of white space ends at the first character that is not white space. */
  lemma WhiteRunStops(x: string, m: nat)
    requires m < |x| && !IsWhiteSpace(x[m])
    ensures WhiteRunAt(x) <= m
  {
  }

  lemma SliceOfConcat(a: string, b: string, i: nat)
    requires i <= |a|
    ensures (a + b)[i..] == a[i..] + b
  {
  }

  /** A title that does not start with the series name is kept as it is. */
  lemma WithoutSeriesKeeps(title: string, series: string)
    requires series == "" || !StartsWithIgnoreCase(title, series)
    ensures WithoutSeries(title, series) == title
  {
  }

  /** The cleaned title of "series – rest": the rest, when it starts with neither a digit nor a
      dash and does not end in white space. */
  lemma CleanTitleDropsSeries(name: string, sep: string, rest: string, series: string)
    requires series != "" && |name| == |series| && EqualsIgnoreCase(name, series)
    requires forall k :: 0 <= k < |sep| ==> IsDashOrSpace(sep[k])
    requires rest != [] && !IsDashOrSpace(rest[0]) && !IsDigit(rest[0]) && !IsWhiteSpace(rest[|rest| - 1])
    ensures CleanTitle(name + sep + rest, series) == rest
  {
    WithoutSeriesDrops(name, sep, rest, series);
    StripNumberingKeeps(rest);
  }

  /** The cleaned title of "series – 12. rest": the rest, with both the series name and the
      numbering gone. */
  lemma CleanTitleDropsBoth(name: string, sep: string, digits: string, white: string, rest: string, series: string)
    requires series != "" && |name| == |series| && EqualsIgnoreCase(name, series)
    requires forall k :: 0 <= k < |sep| ==> IsDashOrSpace(sep[k])
    requires digits != [] && AllDigits(digits)
    requires white != [] && AllWhite(white)
    requires rest != [] && !IsWhiteSpace(rest[0]) && !IsWhiteSpace(rest[|rest| - 1])
    ensures CleanTitle(name + sep + digits + "." + white + rest, series) == rest
  {
    var t := digits + "." + white + rest;
    assert name + sep + digits + "." + white + rest == name + sep + t;
    assert t[0] == digits[0] && t[|t| - 1] == rest[|rest| - 1];
    WithoutSeriesDrops(name, sep, t, series);
    StripNumberingOf(digits, white, rest);
  }

  /** An entry with both numbers whose raw title is the series name, dashes and the episode's
      own name is titled "series - name". */
  lemma ParsedEntrySeriesTitle(entry: JsonEntry, originalUrl: string, name: string, sep: string, rest: string)
    requires ParseJsonEntry(entry, originalUrl).Success?
    requires entry.seasonNumber.GetOr("") != "" && entry.episodeNumber.GetOr("") != ""
    requires entry.title == Some(name + sep + rest)
    requires entry.series.GetOr("") != "" && |name| == |entry.series.GetOr("")| && EqualsIgnoreCase(name, entry.series.GetOr(""))
    requires forall k :: 0 <= k < |sep| ==> IsDashOrSpace(sep[k])
    requires rest != [] && !IsDashOrSpace(rest[0]) && !IsDigit(rest[0]) && !IsWhiteSpace(rest[|rest| - 1])
    ensures ParseJsonEntry(entry, originalUrl).value.title == entry.series.GetOr("") + " - " + rest
  {
    EntryShape(entry, originalUrl);
    CleanTitleDropsSeries(name, sep, rest, entry.series.GetOr(""));
  }

  /** What a parsed entry holds. With both numbers the item is titled by the series name, " - "
      and a contiguous part of the raw title, and its tag reads back as the two numbers when
      they lie in [0, 99]; with either missing it is titled by a contiguous part of the raw
      title and has no tag. */
  lemma ParsedEntryFields(entry: JsonEntry, originalUrl: string)
    requires ParseJsonEntry(entry, originalUrl).Success?
    ensures var info := ParseJsonEntry(entry, originalUrl).value;
      var raw := entry.title.GetOr(UnknownTitle);
      var series := entry.series.GetOr("");
      if entry.seasonNumber.GetOr("") != "" && entry.episodeNumber.GetOr("") != "" then
        var season := ParseInt32(entry.seasonNumber.value).value;
        var episode := ParseInt32(entry.episodeNumber.value).value;
        StartsWith(info.title, series + " - ") && IsInfix(info.title[|series| + 3..], raw)
        && (0 <= season < 100 && 0 <= episode < 100 ==>
              |info.seasonEpisode| == 6 && info.seasonEpisode[0] == 'S' && info.seasonEpisode[3] == 'E'
              && AllDigits(info.seasonEpisode[1..3]) && DigitsValue(info.seasonEpisode[1..3]) == season
              && AllDigits(info.seasonEpisode[4..6]) && DigitsValue(info.seasonEpisode[4..6]) == episode)
      else IsInfix(info.title, raw) && info.seasonEpisode == ""
  {
    var info := ParseJsonEntry(entry, originalUrl).value;
    var raw := entry.title.GetOr(UnknownTitle);
    var series := entry.series.GetOr("");
    var clean := CleanTitle(raw, series);
    EntryShape(entry, originalUrl);
    CleanTitleIsInfix(raw, series);
    if entry.seasonNumber.GetOr("") != "" && entry.episodeNumber.GetOr("") != "" {
      var season := ParseInt32(entry.seasonNumber.value).value;
      var episode := ParseInt32(entry.episodeNumber.value).value;
      SeriesTitle(series, clean);
      TagReadsBack(info.seasonEpisode, season, episode);
    }
  }

  /** The fields ParseJsonEntry builds from the cleaned title and the parsed numbers. */
  lemma EntryShape(entry: JsonEntry, originalUrl: string)
    requires ParseJsonEntry(entry, originalUrl).Success?
    ensures var info := ParseJsonEntry(entry, originalUrl).value;
      var clean := CleanTitle(entry.title.GetOr(UnknownTitle), entry.series.GetOr(""));
      if entry.seasonNumber.GetOr("") != "" && entry.episodeNumber.GetOr("") != "" then
        info.title == entry.series.GetOr("") + " - " + clean
        && info.seasonEpisode == SeasonEpisodeTag(ParseInt32(entry.seasonNumber.value).value, ParseInt32(entry.episodeNumber.value).value)
      else info.title == clean && info.seasonEpisode == ""
  {
  }

  lemma TagReadsBack(tag: string, season: int, episode: int)
    requires tag == SeasonEpisodeTag(season, episode)
    ensures 0 <= season < 100 && 0 <= episode < 100 ==>
      |tag| == 6 && tag[0] == 'S' && tag[3] == 'E'
      && AllDigits(tag[1..3]) && DigitsValue(tag[1..3]) == season
      && AllDigits(tag[4..6]) && DigitsValue(tag[4..6]) == episode
  {
    if 0 <= season < 100 && 0 <= episode < 100 {
      SeasonEpisodeTagRoundTrip(season, episode);
    }
  }

  /** "series - title" starts with "series - " and continues with the title. */
  lemma SeriesTitle(series: string, title: string)
    ensures StartsWith(series + " - " + title, series + " - ")
    ensures (series + " - " + title)[|series| + 3..] == title
  {
    assert (series + " - " + title)[..|series + " - "|] == series + " - ";
  }

  /** For season and episode numbers from 0 to 99 the tag has six characters, and its two
      digit pairs read back as the numbers. */
  lemma SeasonEpisodeTagRoundTrip(season: nat, episode: nat)
    requires season < 100 && episode < 100
    ensures var tag := SeasonEpisodeTag(season, episode);
      |tag| == 6 && tag[0] == 'S' && tag[3] == 'E'
      && AllDigits(tag[1..3]) && DigitsValue(tag[1..3]) == season
      && AllDigits(tag[4..6]) && DigitsValue(tag[4..6]) == episode
  {
    Pad2Value(season);
    Pad2Value(episode);
    var tag := SeasonEpisodeTag(season, episode);
    assert tag[1..3] == Pad2(season);
    assert tag[4..6] == Pad2(episode);
  }

  /** `{n:00}` of a number below 100 is two digits that read back as the number. */
  lemma Pad2Value(n: nat)
    requires n < 100
    ensures |Pad2(n)| == 2 && AllDigits(Pad2(n)) && DigitsValue(Pad2(n)) == n
  {
    var s := Pad2(n);
    if n < 10 {
      assert NatToString(n) == [DigitChar(n)];
      assert s == ['0', DigitChar(n)];
      assert s[..1] == "0" && s[..1][..0] == [];
      assert DigitsValue(s[..1]) == 0;
      assert DigitsValue(s) == DigitValue(s[1]);
    } else {
      assert s == NatToString(n);
      assert NatToString(n / 10) == [DigitChar(n / 10)];
      NatToStringValue(n);
    }
  }
}
