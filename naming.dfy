/**
 * How a download's files are named: the file-name sanitiser (a regular-expression replace over
 * the platform's invalid file-name characters), the output and cleanup names, the format
 * selector, the audio language code and the choice of temporary folder.
 */
module FileNaming {
  import opened Text

  // ---------------------------------------------------------------------------------------
  // SanitizeFileName: Regex.Replace(name, "([inv]*\.+$)|([inv]+)", "_")

  /** The platform's invalid file-name characters never include the dot: the sanitiser's
      pattern is only analysed under that condition. */
  predicate DotIsValid(inv: set<char>) {
    '.' !in inv
  }

  /** ... nor the underscore that replaces them. */
  predicate PlatformInvalidSet(inv: set<char>) {
    '.' !in inv && '_' !in inv
  }

  /** Length of the longest prefix of `t` made of characters of `cs`. */
  function CharRun(cs: set<char>, t: string): (n: nat)
    ensures n <= |t|
    ensures n > 0 ==> t[0] in cs
    ensures n < |t| ==> t[n] !in cs
    decreases |t|
  {
    if |t| > 0 && t[0] in cs then CharRun(cs, t[1..]) + 1 else 0
  }

  /** Every character of the run is in `cs`. */
  lemma {:induction false} InCharRun(cs: set<char>, t: string, i: nat)
    requires i < CharRun(cs, t)
    ensures t[i] in cs
    decreases |t|
  {
    if i > 0 {
      InCharRun(cs, t[1..], i - 1);
    }
  }

  /** Length of the longest prefix of `t` made of invalid characters. */
  function InvalidRun(inv: set<char>, t: string): (n: nat)
    ensures n <= |t|
    ensures n > 0 ==> t[0] in inv
    ensures n < |t| ==> t[n] !in inv
  {
    CharRun(inv, t)
  }

  /** Length of the longest prefix of `t` made of dots. */
  function DotRun(t: string): (n: nat)
    ensures n <= |t|
    ensures n > 0 ==> t[0] == '.'
    ensures n < |t| ==> t[n] != '.'
  {
    CharRun({'.'}, t)
  }

  /** A run that stops inside `x` is not changed by what follows `x`; one that fills `x`
      continues into what follows. */
  lemma {:induction false} CharRunAppend(cs: set<char>, x: string, y: string)
    ensures CharRun(cs, x) < |x| ==> CharRun(cs, x + y) == CharRun(cs, x)
    ensures CharRun(cs, x) == |x| ==> CharRun(cs, x + y) == |x| + CharRun(cs, y)
    decreases |x|
  {
    if |x| == 0 {
      assert x + y == y;
    } else {
      assert (x + y)[1..] == x[1..] + y;
      if x[0] in cs {
        CharRunAppend(cs, x[1..], y);
      }
    }
  }

  /** Where `$` matches in a .NET pattern without RegexOptions.Multiline: at the end of the
      input, or just before a final line feed. */
  predicate AtEnd(t: string, k: int) {
    k == |t| || (k == |t| - 1 && 0 <= k && t[k] == '\n')
  }

  /** What the replace does at the start of `t`: the text it writes and the number of
      characters it consumes. It tries the first alternative (invalid characters, then dots
      running up to the end) and then the second (invalid characters), and replaces what
      matched by one "_"; where neither matches, it keeps the character. Neither alternative can
      match the empty string. Since `t` is always a suffix of the input, its end is the input's
      end. */
  function Piece(inv: set<char>, t: string): (p: (string, nat))
    requires DotIsValid(inv)
    requires |t| > 0
    ensures 1 <= p.1 <= |t|
    ensures p.0 == "_" || (p.0 == [t[0]] && p.1 == 1)
  {
    var m := InvalidRun(inv, t);
    var d := DotRun(t[m..]);
    if d > 0 && AtEnd(t, m + d) then ("_", m + d)
    else if m > 0 then ("_", m)
    else ([t[0]], 1)
  }

  /** `SanitizeFileName`: the pieces written while scanning the name from left to right. */
  function Sanitize(inv: set<char>, t: string): string
    requires DotIsValid(inv)
    decreases |t|
  {
    if |t| == 0 then ""
    else
      var p := Piece(inv, t);
      p.0 + Sanitize(inv, t[p.1..])
  }

  /** No character of `u` is invalid. */
  predicate NoInvalid(inv: set<char>, u: string) {
    forall i :: 0 <= i < |u| ==> u[i] !in inv
  }

  /** `u` does not end in a dot, nor in a dot and a final line feed. */
  predicate NoDotTail(u: string) {
    !(|u| >= 1 && u[|u| - 1] == '.') && !(|u| >= 2 && u[|u| - 2] == '.' && u[|u| - 1] == '\n')
  }

  /** What the sanitiser must produce, and leaves alone. */
  predicate Clean(inv: set<char>, u: string) {
    NoInvalid(inv, u) && NoDotTail(u)
  }

  /** A character is kept when it is neither invalid nor the start of a run of dots that
      reaches the end; otherwise one "_" is written. */
  lemma PieceKeeps(inv: set<char>, t: string)
    requires DotIsValid(inv) && |t| > 0
    ensures var keep := t[0] !in inv && !(t[0] == '.' && AtEnd(t, DotRun(t)));
      Piece(inv, t) == ([t[0]], 1) || (!keep && Piece(inv, t).0 == "_")
    ensures t[0] !in inv && !(t[0] == '.' && AtEnd(t, DotRun(t))) ==> Piece(inv, t) == ([t[0]], 1)
    ensures Piece(inv, t).0 != "_" ==> Piece(inv, t) == ([t[0]], 1) && t[0] !in inv && !(t[0] == '.' && AtEnd(t, DotRun(t)))
  {
  }

  /** A kept dot is neither the last character nor followed by just a final line feed. */
  lemma KeptDot(inv: set<char>, t: string)
    requires DotIsValid(inv) && |t| > 0
    requires Piece(inv, t).0 == "."
    ensures |t| >= 2 && t[1..] != "\n"
  {
    PieceKeeps(inv, t);
  }

  /** The sanitised name holds no invalid character. */
  lemma {:induction false} SanitizeNoInvalid(inv: set<char>, t: string)
    requires PlatformInvalidSet(inv)
    ensures NoInvalid(inv, Sanitize(inv, t))
    decreases |t|
  {
    if |t| > 0 {
      var p := Piece(inv, t);
      SanitizeNoInvalid(inv, t[p.1..]);
      if p.0 != "_" {
        PieceKeeps(inv, t);
      }
      var r := Sanitize(inv, t);
      assert r == p.0 + Sanitize(inv, t[p.1..]);
      forall i | 0 <= i < |r| ensures r[i] !in inv {
        if i >= |p.0| { assert r[i] == Sanitize(inv, t[p.1..])[i - |p.0|]; }
      }
    }
  }

  /** Only the empty string sanitises to the empty string. */
  lemma SanitizeEmpty(inv: set<char>, t: string)
    requires DotIsValid(inv)
    ensures |Sanitize(inv, t)| == 0 <==> |t| == 0
  {
  }

  /** Only a lone line feed sanitises to a lone line feed. */
  lemma SanitizeLineFeed(inv: set<char>, t: string)
    requires DotIsValid(inv)
    ensures Sanitize(inv, t) == "\n" ==> t == "\n"
  {
    if |t| > 0 {
      var p := Piece(inv, t);
      SanitizeEmpty(inv, t[p.1..]);
      assert Sanitize(inv, t) == p.0 + Sanitize(inv, t[p.1..]);
      if p.0 == "\n" {
        PieceKeeps(inv, t);
      }
    }
  }

  /** The sanitised name does not end in a dot (nor in a dot before a final line feed). */
  lemma {:induction false} SanitizeNoDotTail(inv: set<char>, t: string)
    requires DotIsValid(inv)
    ensures NoDotTail(Sanitize(inv, t))
    decreases |t|
  {
    if |t| > 0 {
      var p := Piece(inv, t);
      var rest := Sanitize(inv, t[p.1..]);
      var r := Sanitize(inv, t);
      assert r == p.0 + rest;
      SanitizeNoDotTail(inv, t[p.1..]);
      SanitizeEmpty(inv, t[p.1..]);
      if p.0 == "." {
        // a kept dot is followed by something other than the end or a final line feed
        KeptDot(inv, t);
        SanitizeLineFeed(inv, t[1..]);
      }
      TailOfPiece(p.0, rest);
    }
  }

  /** One written character before a string without a dot tail gives none, unless it is a dot
      that ends the name or comes just before a final line feed. */
  lemma TailOfPiece(piece: string, rest: string)
    requires |piece| == 1 && NoDotTail(rest)
    requires !(piece == "." && (|rest| == 0 || rest == "\n"))
    ensures NoDotTail(piece + rest)
  {
    var r := piece + rest;
    if |rest| >= 2 {
      assert r[|r| - 1] == rest[|rest| - 1] && r[|r| - 2] == rest[|rest| - 2];
    } else if |rest| == 1 {
      assert r[|r| - 1] == rest[0] && r[|r| - 2] == piece[0];
    }
  }

  /** A clean name has a clean remainder after its first character. */
  lemma CleanTail(inv: set<char>, u: string)
    requires |u| > 0 && Clean(inv, u)
    ensures Clean(inv, u[1..])
  {
    var v := u[1..];
    if |v| >= 1 { assert v[|v| - 1] == u[|u| - 1]; }
    if |v| >= 2 { assert v[|v| - 2] == u[|u| - 2]; }
  }

  /** In a clean name, the first character is kept. */
  lemma CleanKeepsFirst(inv: set<char>, u: string)
    requires DotIsValid(inv) && |u| > 0 && Clean(inv, u)
    ensures Piece(inv, u) == ([u[0]], 1)
  {
    var k := DotRun(u);
    assert u[0] == '.' ==> k >= 1;
    if k >= 1 {
      InCharRun({'.'}, u, k - 1);
    }
    PieceKeeps(inv, u);
  }

  /** A clean name is left as it is. */
  lemma {:induction false} CleanIsFixed(inv: set<char>, u: string)
    requires DotIsValid(inv) && Clean(inv, u)
    ensures Sanitize(inv, u) == u
    decreases |u|
  {
    if |u| > 0 {
      CleanKeepsFirst(inv, u);
      CleanTail(inv, u);
      CleanIsFixed(inv, u[1..]);
      assert [u[0]] + u[1..] == u;
    }
  }

  /** The sanitised name is clean. */
  lemma SanitizeIsClean(inv: set<char>, t: string)
    requires PlatformInvalidSet(inv)
    ensures Clean(inv, Sanitize(inv, t))
  {
    SanitizeNoInvalid(inv, t);
    SanitizeNoDotTail(inv, t);
  }

  /** The sanitiser leaves a name alone exactly when the name is clean. */
  lemma SanitizeFixedIffClean(inv: set<char>, u: string)
    requires PlatformInvalidSet(inv)
    ensures Sanitize(inv, u) == u <==> Clean(inv, u)
  {
    SanitizeIsClean(inv, u);
    if Clean(inv, u) {
      CleanIsFixed(inv, u);
    }
  }

  /** Sanitising twice is sanitising once. */
  lemma SanitizeIdempotent(inv: set<char>, t: string)
    requires PlatformInvalidSet(inv)
    ensures Sanitize(inv, Sanitize(inv, t)) == Sanitize(inv, t)
  {
    SanitizeIsClean(inv, t);
    CleanIsFixed(inv, Sanitize(inv, t));
  }

  /** What the replace writes and consumes at the start of `a` is what it writes and consumes
      at the start of `a + b`, when `a` does not end in invalid characters only and has no dot
      tail; when `a` is all invalid, both start with "_". */
  lemma PieceOfAppend(inv: set<char>, a: string, b: string)
    requires DotIsValid(inv) && |a| > 0 && |b| > 0 && NoDotTail(a)
    ensures InvalidRun(inv, a) < |a| ==> Piece(inv, a + b) == Piece(inv, a)
    ensures InvalidRun(inv, a) == |a| ==> Piece(inv, a).0 == "_" && Piece(inv, a).1 == |a| && Piece(inv, a + b).0 == "_"
  {
    var t := a + b;
    CharRunAppend(inv, a, b);
    var m := InvalidRun(inv, a);
    if m < |a| {
      DropOfAppend(a, b, m);
      CharRunAppend({'.'}, a[m..], b);
      var d := DotRun(a[m..]);
      DotsStopInside(a, m);
      PieceOfRuns(inv, a, m, d);
      PieceOfRuns(inv, t, m, d);
      assert t[0] == a[0];
    } else {
      assert a[m..] == [];
      PieceOfRuns(inv, a, m, 0);
    }
  }

  /** The piece at the start of `t`, given its run of invalid characters and the run of dots
      after it. */
  lemma PieceOfRuns(inv: set<char>, t: string, m: nat, d: nat)
    requires DotIsValid(inv) && |t| > 0
    requires m == InvalidRun(inv, t) && d == DotRun(t[m..])
    ensures d > 0 && AtEnd(t, m + d) ==> Piece(inv, t) == ("_", m + d)
    ensures !(d > 0 && AtEnd(t, m + d)) && m > 0 ==> Piece(inv, t) == ("_", m)
    ensures !(d > 0 && AtEnd(t, m + d)) && m == 0 ==> Piece(inv, t) == ([t[0]], 1)
  {
  }

  /** In a string without a dot tail, a run of dots starting at `m` ends before the last
      character, and not just before a final line feed. */
  lemma DotsStopInside(a: string, m: nat)
    requires NoDotTail(a) && m < |a|
    ensures m + DotRun(a[m..]) < |a|
    ensures !(DotRun(a[m..]) > 0 && AtEnd(a, m + DotRun(a[m..])))
  {
    var d := DotRun(a[m..]);
    assert a[m..][|a| - 1 - m] == a[|a| - 1];
    if d > 0 {
      InCharRun({'.'}, a[m..], d - 1);
      assert a[m + d - 1] == a[m..][d - 1];
    }
  }

  /** The cleaned form of `a` begins the cleaned form of `a + b`, when `a` has no dot tail. */
  lemma {:induction false} SanitizePrefix(inv: set<char>, a: string, b: string)
    requires DotIsValid(inv) && NoDotTail(a)
    ensures StartsWith(Sanitize(inv, a + b), Sanitize(inv, a))
    decreases |a|
  {
    if |b| == 0 {
      assert a + b == a;
    } else if |a| > 0 {
      PieceOfAppend(inv, a, b);
      var p := Piece(inv, a);
      if InvalidRun(inv, a) < |a| {
        if p.1 < |a| {
          NoDotTailSuffix(a, p.1);
          SanitizePrefix(inv, a[p.1..], b);
        } else {
          assert a[p.1..] == [];
        }
        SamePieceKeepsPrefix(inv, a, b, p.0, p.1);
      } else {
        AllInvalidKeepsPrefix(inv, a, b);
      }
    }
  }

  /** When `a` and `a + b` start with the same piece, the prefix property carries over from
      what follows it. */
  lemma SamePieceKeepsPrefix(inv: set<char>, a: string, b: string, w: string, k: nat)
    requires DotIsValid(inv) && |a| > 0
    requires Piece(inv, a) == (w, k) && Piece(inv, a + b) == (w, k)
    requires StartsWith(Sanitize(inv, a[k..] + b), Sanitize(inv, a[k..]))
    ensures StartsWith(Sanitize(inv, a + b), Sanitize(inv, a))
  {
    SanitizeStep(inv, a);
    SanitizeStep(inv, a + b);
    DropOfAppend(a, b, k);
    StartsWithPrepend(w, Sanitize(inv, a[k..] + b), Sanitize(inv, a[k..]));
  }

  /** When `a` is all invalid it sanitises to "_", which also begins the sanitised `a + b`. */
  lemma AllInvalidKeepsPrefix(inv: set<char>, a: string, b: string)
    requires DotIsValid(inv) && |a| > 0 && |b| > 0
    requires Piece(inv, a).0 == "_" && Piece(inv, a).1 == |a| && Piece(inv, a + b).0 == "_"
    ensures StartsWith(Sanitize(inv, a + b), Sanitize(inv, a))
  {
    SanitizeStep(inv, a);
    SanitizeStep(inv, a + b);
    assert a[|a|..] == [];
  }

  /** The sanitiser writes the first piece and goes on after what it consumed. */
  lemma SanitizeStep(inv: set<char>, t: string)
    requires DotIsValid(inv) && |t| > 0
    ensures Sanitize(inv, t) == Piece(inv, t).0 + Sanitize(inv, t[Piece(inv, t).1..])
  {
  }

  /** Dropping from `a + b` no more than `a` holds drops from `a`. */
  lemma DropOfAppend(a: string, b: string, k: nat)
    requires k <= |a|
    ensures (a + b)[k..] == a[k..] + b
  {
  }

  /** A non-empty suffix of a string without a dot tail has none either. */
  lemma NoDotTailSuffix(a: string, k: nat)
    requires NoDotTail(a) && k < |a|
    ensures NoDotTail(a[k..])
  {
    var v := a[k..];
    assert v[|v| - 1] == a[|a| - 1];
    if |v| >= 2 { assert v[|v| - 2] == a[|a| - 2]; }
  }

  /** Putting the same text in front keeps a prefix a prefix. */
  lemma StartsWithPrepend(p: string, x: string, y: string)
    requires StartsWith(x, y)
    ensures StartsWith(p + x, p + y)
  {
    assert (p + x)[..|p + y|] == p + x[..|y|];
  }

  /** A clean ending that starts with neither an invalid character nor a line feed survives
      sanitising: the name keeps its extension. */
  lemma {:induction false} SanitizeKeepsEnding(inv: set<char>, a: string, b: string)
    requires DotIsValid(inv) && Clean(inv, b) && |b| > 0 && b[0] != '\n'
    ensures EndsWith(Sanitize(inv, a + b), b)
    decreases |a|
  {
    var t := a + b;
    if |a| == 0 {
      assert t == b;
      CleanIsFixed(inv, b);
    } else {
      var p := Piece(inv, t);
      PieceWithinPrefix(inv, a, b);
      assert t[p.1..] == a[p.1..] + b;
      SanitizeKeepsEnding(inv, a[p.1..], b);
    }
  }

  /** No match of the replace crosses into a clean ending such as ".mkv". */
  lemma PieceWithinPrefix(inv: set<char>, a: string, b: string)
    requires DotIsValid(inv) && Clean(inv, b) && |b| > 0 && b[0] != '\n' && |a| > 0
    ensures Piece(inv, a + b).1 <= |a|
  {
    var t := a + b;
    var m := InvalidRun(inv, t);
    assert t[|a|] == b[0];
    if |a| < m {
      InCharRun(inv, t, |a|);
    }
    var d := DotRun(t[m..]);
    PieceOfRuns(inv, t, m, d);
    var j := m + d - |a|;
    if j >= 1 {
      InCharRun({'.'}, t[m..], d - 1);
      assert t[m..][d - 1] == b[j - 1];
    }
  }

  // ---------------------------------------------------------------------------------------
  // The names a download uses

  const Extension := ".mkv"

  /** The title, followed by " - " and the season/episode tag when there is one. */
  function FileNameBase(title: string, seasonEpisode: string): (r: string)
    ensures StartsWith(r, title)
    ensures seasonEpisode == "" ==> r == title
    ensures seasonEpisode != "" ==> EndsWith(r, " - " + seasonEpisode) && |r| == |title| + 3 + |seasonEpisode|
  {
    if seasonEpisode != "" then title + " - " + seasonEpisode else title
  }

  /** Nothing for "best", otherwise " - " and the height with a "p". */
  function ResolutionTag(resolution: string): (r: string)
    ensures r == "" <==> resolution == "best"
    ensures r != "" ==> |r| >= 4 && StartsWith(r, " - ") && EndsWith(r, "p") && r[3..|r| - 1] == resolution
  {
    if resolution == "best" then "" else " - " + resolution + "p"
  }

  /** The name of the finished file, in the temporary folder and in the output folder. */
  function FinalFileName(inv: set<char>, title: string, seasonEpisode: string, resolution: string): string
    requires DotIsValid(inv)
  {
    Sanitize(inv, FileNameBase(title, seasonEpisode) + ResolutionTag(resolution) + Extension)
  }

  /** The prefix that every file of the download starts with: the sanitised base name. */
  function CleanupPattern(inv: set<char>, title: string, seasonEpisode: string): string
    requires DotIsValid(inv)
  {
    Sanitize(inv, FileNameBase(title, seasonEpisode))
  }

  /** The final name is a valid file name without a trailing dot, and still ends in ".mkv"
      when the platform allows those four characters. */
  lemma FinalFileNameIsClean(inv: set<char>, title: string, seasonEpisode: string, resolution: string)
    requires PlatformInvalidSet(inv)
    requires NoInvalid(inv, Extension)
    ensures Clean(inv, FinalFileName(inv, title, seasonEpisode, resolution))
    ensures EndsWith(FinalFileName(inv, title, seasonEpisode, resolution), Extension)
  {
    var stem := FileNameBase(title, seasonEpisode) + ResolutionTag(resolution);
    SanitizeIsClean(inv, stem + Extension);
    SanitizeKeepsEnding(inv, stem, Extension);
  }

  /** The cleanup prefix begins the final name whenever the base name has no dot tail, so the
      cancel sweep also finds the final file. */
  lemma CleanupPatternBeginsFinalName(inv: set<char>, title: string, seasonEpisode: string, resolution: string)
    requires DotIsValid(inv)
    requires NoDotTail(FileNameBase(title, seasonEpisode))
    ensures StartsWith(FinalFileName(inv, title, seasonEpisode, resolution), CleanupPattern(inv, title, seasonEpisode))
  {
    var base := FileNameBase(title, seasonEpisode);
    var rest := ResolutionTag(resolution) + Extension;
    assert base + ResolutionTag(resolution) + Extension == base + rest;
    SanitizePrefix(inv, base, rest);
  }

  /** A base name that ends in a dot loses it in the cleanup prefix but not in the final name:
      "Ep." cleans to "Ep_" while the final name is "Ep..mkv", so the sweep misses the final
      file. */
  lemma DotTailedBaseEscapesSweep(inv: set<char>, u: string)
    requires PlatformInvalidSet(inv) && NoInvalid(inv, Extension) && Clean(inv, u)
    ensures CleanupPattern(inv, u + ".", "") == u + "_"
    ensures FinalFileName(inv, u + ".", "", "best") == u + "." + Extension
    ensures !StartsWith(FinalFileName(inv, u + ".", "", "best"), CleanupPattern(inv, u + ".", ""))
  {
    SanitizeTrailingDot(inv, u);
    var n := u + "." + Extension;
    assert FileNameBase(u + ".", "") + ResolutionTag("best") + Extension == n;
    assert NoInvalid(inv, ".") by { assert "."[0] == '.'; }
    NoInvalidAppend(inv, u, ".");
    NoInvalidAppend(inv, u + ".", Extension);
    assert n[|n| - 1] == Extension[3];
    CleanIsFixed(inv, n);
    assert n[|u|] == '.' && (u + "_")[|u|] == '_';
  }

  /** Without invalid characters on either side there are none in the whole. */
  lemma NoInvalidAppend(inv: set<char>, x: string, y: string)
    requires NoInvalid(inv, x) && NoInvalid(inv, y)
    ensures NoInvalid(inv, x + y)
  {
    forall i | 0 <= i < |x + y| ensures (x + y)[i] !in inv {
      if i >= |x| { assert (x + y)[i] == y[i - |x|]; }
    }
  }

  /** A dot after a clean name reaches the end and becomes "_"; the rest is kept. */
  lemma {:induction false} SanitizeTrailingDot(inv: set<char>, u: string)
    requires DotIsValid(inv) && Clean(inv, u)
    ensures Sanitize(inv, u + ".") == u + "_"
    decreases |u|
  {
    if |u| == 0 {
      assert u + "." == ".";
      assert DotRun(".") == 1 by { assert "."[1..] == []; }
      SanitizeStep(inv, ".");
    } else {
      assert u[0] !in inv;
      PieceOfAppend(inv, u, ".");
      CleanKeepsFirst(inv, u);
      CleanTail(inv, u);
      SanitizeTrailingDot(inv, u[1..]);
      SanitizeStep(inv, u + ".");
      DropOfAppend(u, ".", 1);
      PrependFirst(u, "_");
    }
  }

  /** Putting back the first character. */
  lemma PrependFirst(u: string, v: string)
    requires |u| > 0
    ensures [u[0]] + (u[1..] + v) == u + v
  {
  }

  /** The `-S` format-sort argument: "res" for the best quality, otherwise "res:" and the height. */
  function FormatSelector(resolution: string): (r: string)
    ensures StartsWith(r, "res")
    ensures r == "res" <==> resolution == "best"
    ensures r != "res" ==> r[..4] == "res:" && r[4..] == resolution
  {
    if resolution == "best" then "res" else "res:" + resolution
  }

  /** The audio language names the settings offer. */
  const KnownLanguages: set<string> := {"Norsk", "Svensk", "Dansk", "Engelsk"}

  /** The ISO 639-2 code written into the audio stream's metadata; "und" (undetermined) for a
      language the map does not know. */
  function LanguageCode(languageName: string): (r: string)
    ensures |r| == 3
    ensures r == "und" <==> languageName !in KnownLanguages
  {
    match languageName
    case "Norsk" => "nob"
    case "Svensk" => "swe"
    case "Dansk" => "dan"
    case "Engelsk" => "eng"
    case _ => "und"
  }

  /** Different known languages get different codes. */
  lemma LanguageCodesDistinct(a: string, b: string)
    requires a in KnownLanguages && b in KnownLanguages && a != b
    ensures LanguageCode(a) != LanguageCode(b)
  {
  }

  // ---------------------------------------------------------------------------------------
  // Folders

  predicate IsSeparator(c: char) {
    c == '\\' || c == '/'
  }

  /** `Path.IsPathRooted` on Windows: a leading separator or a drive letter and a colon. */
  predicate IsRooted(name: string) {
    (|name| >= 1 && IsSeparator(name[0]))
    || (|name| >= 2 && ('a' <= name[0] <= 'z' || 'A' <= name[0] <= 'Z') && name[1] == ':')
  }

  /** `Path.Combine(dir, name)` on Windows: a rooted name replaces the folder; otherwise a
      separator is put between the two unless the folder already ends with one. */
  function Combine(dir: string, name: string): (r: string)
    ensures EndsWith(r, name)
    ensures !IsRooted(name) ==> StartsWith(r, dir)
    ensures dir != "" && name != "" && !IsRooted(name) && !IsSeparator(dir[|dir| - 1]) ==> |r| == |dir| + 1 + |name|
    ensures dir == "" || IsRooted(name) ==> r == name
  {
    if dir == "" then name
    else if name == "" then dir
    else if IsRooted(name) then name
    else if IsSeparator(dir[|dir| - 1]) then dir + name
    else dir + "\\" + name
  }

  const DownloadFolderName := "NRKDownload"

  /** The folder a download writes to: the configured temporary folder, or "NRKDownload" under
      the system's temporary folder when the settings ask for that or name no folder. */
  function TempDirectory(useSystemTemp: bool, tempFolder: string, systemTemp: string): (r: string)
    ensures r != ""
    ensures !useSystemTemp && tempFolder != "" ==> r == tempFolder
    ensures useSystemTemp || tempFolder == "" ==> r == Combine(systemTemp, DownloadFolderName)
  {
    var chosen := if useSystemTemp then Combine(systemTemp, DownloadFolderName) else tempFolder;
    if chosen == "" then Combine(systemTemp, DownloadFolderName) else chosen
  }
}
