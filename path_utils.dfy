/** A model of the `PathUtils` object of static/path-utils.js: string
    functions that treat both `\` and `/` as path separators. The host probe
    `isWindows()` (which reads the browser's platform and URL) becomes the
    parameter `win`, so every function is a deterministic function of
    `(win, path)`. */
module PathUtils {
  import opened Text

  /** The characters the character class `[\\\/]` matches. */
  predicate IsSep(c: char) {
    c == '\\' || c == '/'
  }

  /** `getSeparator()`. */
  function GetSeparator(win: bool): (c: char)
    ensures IsSep(c)
    ensures c == '\\' <==> win
  {
    if win then '\\' else '/'
  }

  /** `getDefaultRoot()`: the default root is absolute on either platform. */
  function GetDefaultRoot(win: bool): (r: string)
    ensures r == "C:\\" <==> win
    ensures r == "/" <==> !win
    ensures IsAbsolute(win, r)
  {
    if win then "C:\\" else "/"
  }

  // ---------------------------------------------------------------------
  // normalize

  /** Drops the separators at the head of `s`. */
  function SkipSeps(s: string): (r: string)
    ensures r == "" || !IsSep(r[0])
    ensures |r| <= |s| && r == s[|s| - |r|..]
  {
    if s != [] && IsSep(s[0]) then SkipSeps(s[1..]) else s
  }

  /** `s.replace(/[\\\/]+/g, sep)`: every maximal run of separators becomes
      one `sep`. */
  function Collapse(s: string, sep: char): (r: string)
    requires IsSep(sep)
    ensures r == [] <==> s == []
    ensures s != [] && !IsSep(s[0]) ==> r[0] == s[0]
    ensures s != [] && IsSep(s[0]) ==> r[0] == sep
    ensures forall i :: 0 <= i < |r| && IsSep(r[i]) ==> r[i] == sep
    ensures forall i :: 0 <= i < |r| - 1 ==> !(IsSep(r[i]) && IsSep(r[i + 1]))
    decreases |s|
  {
    if s == [] then []
    else if IsSep(s[0]) then [sep] + Collapse(SkipSeps(s[1..]), sep)
    else [s[0]] + Collapse(s[1..], sep)
  }

  /** `normalize(path)`: the empty path is returned as it is; otherwise every
      run of separators of either kind becomes the one separator of the
      platform. Leading and trailing separators are kept (collapsed), not
      trimmed. */
  function Normalize(win: bool, path: string): (r: string)
    ensures path == "" ==> r == ""
    ensures forall i :: 0 <= i < |r| && IsSep(r[i]) ==> r[i] == GetSeparator(win)
    ensures forall i :: 0 <= i < |r| - 1 ==> !(IsSep(r[i]) && IsSep(r[i + 1]))
    ensures (r != "" && IsSep(r[0])) <==> (path != "" && IsSep(path[0]))
  {
    if path == "" then path else Collapse(path, GetSeparator(win))
  }

  // ---------------------------------------------------------------------
  // split, join, toUrl, getFirstDir, isAbsolute

  /** `split(path)`: the empty path gives []; otherwise the pieces between
      separator runs, with the empty ones filtered out. */
  function Split(path: string): (r: seq<string>)
    ensures forall k :: 0 <= k < |r| ==> r[k] != "" && NoDelim(r[k], IsSep)
  {
    if path == "" then [] else NonEmpty(Fields(path, IsSep))
  }

  /** `join(...parts)`: the non-empty parts joined with the platform
      separator, which is "" exactly when every part is empty. */
  function Join(win: bool, parts: seq<string>): (r: string)
    ensures r == "" <==> forall k :: 0 <= k < |parts| ==> parts[k] == ""
  {
    JoinEmptyIff(parts, GetSeparator(win));
    JoinWith(NonEmpty(parts), GetSeparator(win))
  }

  /** `toUrl(path)`: every `\` becomes `/`; nothing else changes. */
  function ToUrl(path: string): (r: string)
    ensures |r| == |path|
    ensures forall i :: 0 <= i < |r| ==> r[i] == (if path[i] == '\\' then '/' else path[i])
    ensures '\\' !in r
  {
    if path == "" then path
    else [if path[0] == '\\' then '/' else path[0]] + ToUrl(path[1..])
  }

  /** `getFirstDir(path)`: the first segment of `split(path)`, or "" when
      `split` finds no segment. */
  function GetFirstDir(path: string): (r: string)
    ensures NoDelim(r, IsSep)
    ensures r == "" <==> Split(path) == []
  {
    var parts := Split(path);
    if |parts| > 0 then parts[0] else ""
  }

  /** The `X:\` or `X:/` drive prefix (`/^[A-Z]:[\\\/]/`). */
  predicate HasDrivePrefix(path: string) {
    |path| >= 3 && 'A' <= path[0] <= 'Z' && path[1] == ':' && IsSep(path[2])
  }

  /** `isAbsolute(path)`: an absolute path starts with a separator or a
      drive prefix, and a drive prefix makes a path absolute exactly on
      Windows. */
  predicate IsAbsolute(win: bool, path: string)
    ensures IsAbsolute(win, path) ==> path != "" && (IsSep(path[0]) || HasDrivePrefix(path))
    ensures HasDrivePrefix(path) ==> (IsAbsolute(win, path) <==> win)
  {
    if path == "" then false
    else if win then HasDrivePrefix(path) || (|path| >= 2 && path[0] == '\\' && path[1] == '\\')
    else path[0] == '/'
  }

  // ---------------------------------------------------------------------
  // split

  /** `split` gives [] exactly for the empty path and for paths made only of
      separators; every segment it gives is non-empty and separator-free
      (stated on `Split` itself). */
  lemma SplitEmptyIffOnlySeparators(path: string)
    ensures Split(path) == [] <==> AllDelim(path, IsSep)
  {
    NoFieldsIffAllDelim(path, IsSep);
  }

  /** Splitting a joined path gives back the non-empty parts, whichever
      separator the platform uses; with non-empty parts this is an exact
      round trip. */
  lemma SplitJoin(win: bool, parts: seq<string>)
    requires forall k :: 0 <= k < |parts| ==> NoDelim(parts[k], IsSep)
    ensures Split(Join(win, parts)) == NonEmpty(parts)
    ensures (forall k :: 0 <= k < |parts| ==> parts[k] != "") ==> Split(Join(win, parts)) == parts
  {
    var ps := NonEmpty(parts);
    var sep := GetSeparator(win);
    forall k | 0 <= k < |ps| ensures ps[k] != "" && NoDelim(ps[k], IsSep) {
      assert ps[k] in parts;
    }
    if ps != [] {
      FieldsOfJoin(ps, sep, IsSep);
      JoinWithHead(ps, sep);
      NonEmptyKeepsAll(ps);
    }
    if forall k :: 0 <= k < |parts| ==> parts[k] != "" {
      NonEmptyKeepsAll(parts);
    }
  }

  // ---------------------------------------------------------------------
  // join

  /** Joining with a separator gives "" exactly when every part is empty. */
  lemma JoinEmptyIff(parts: seq<string>, sep: char)
    ensures JoinWith(NonEmpty(parts), sep) == "" <==> forall k :: 0 <= k < |parts| ==> parts[k] == ""
  {
    var ps := NonEmpty(parts);
    if ps != [] {
      JoinWithHead(ps, sep);
      assert ps[0] in parts;
    } else {
      forall k | 0 <= k < |parts| ensures parts[k] == "" {
        assert parts[k] in parts;
      }
    }
  }

  /** `join` adds no leading or trailing separator of its own. */
  lemma JoinShape(win: bool, parts: seq<string>)
    ensures (forall k :: 0 <= k < |parts| ==> NoDelim(parts[k], IsSep)) ==>
              var r := Join(win, parts); r == "" || (!IsSep(r[0]) && !IsSep(r[|r| - 1]))
  {
    var ps := NonEmpty(parts);
    var sep := GetSeparator(win);
    if ps != [] {
      JoinWithHead(ps, sep);
      JoinWithLast(ps, sep);
      assert ps[0] in parts && ps[|ps| - 1] in parts;
    }
  }

  /** On POSIX a joined path of separator-free parts is never absolute. */
  lemma PosixJoinIsRelative(parts: seq<string>)
    requires forall k :: 0 <= k < |parts| ==> NoDelim(parts[k], IsSep)
    ensures !IsAbsolute(false, Join(false, parts))
  {
    JoinShape(false, parts);
  }

  // ---------------------------------------------------------------------
  // normalize

  /** A leading separator run counts as one empty field. */
  lemma {:induction false} FieldsOfRun(s: string)
    requires s != [] && IsSep(s[0])
    ensures Fields(s, IsSep) == [""] + Fields(SkipSeps(s[1..]), IsSep)
    decreases |s|
  {
    if |s| > 1 && IsSep(s[1]) {
      FieldsOfRun(s[1..]);
      assert s[1..][1..] == s[2..];
    }
  }

  /** Collapsing separator runs changes none of the fields. */
  lemma {:induction false} CollapseKeepsFields(s: string, sep: char)
    requires IsSep(sep)
    ensures Fields(Collapse(s, sep), IsSep) == Fields(s, IsSep)
    decreases |s|
  {
    if s == [] {
    } else if IsSep(s[0]) {
      var t := SkipSeps(s[1..]);
      var c := Collapse(t, sep);
      var u := [sep] + c;
      CollapseKeepsFields(t, sep);
      FieldsOfRun(s);
      FieldsOfRun(u);
      assert u[1..] == c;
      assert SkipSeps(c) == c;
    } else {
      var c := Collapse(s[1..], sep);
      CollapseKeepsFields(s[1..], sep);
      assert ([s[0]] + c)[1..] == c;
    }
  }

  /** `normalize` is "split on separator runs, then join with the platform
      separator", with no field dropped. */
  lemma {:induction false} CollapseIsJoinOfFields(s: string, sep: char)
    requires IsSep(sep)
    ensures Collapse(s, sep) == JoinWith(Fields(s, IsSep), sep)
    decreases |s|
  {
    if s == [] {
    } else if IsSep(s[0]) {
      var t := SkipSeps(s[1..]);
      CollapseIsJoinOfFields(t, sep);
      FieldsOfRun(s);
      JoinWithEmptyHead(Fields(t, IsSep), sep);
    } else {
      CollapseIsJoinOfFields(s[1..], sep);
      JoinWithGlue(s[0], Fields(s[1..], IsSep), sep);
    }
  }

  lemma JoinWithEmptyHead(f: seq<string>, sep: char)
    requires |f| >= 1
    ensures JoinWith([""] + f, sep) == [sep] + JoinWith(f, sep)
  {
    assert ([""] + f)[1..] == f;
  }

  lemma JoinWithGlue(c: char, f: seq<string>, sep: char)
    requires |f| >= 1
    ensures JoinWith([[c] + f[0]] + f[1..], sep) == [c] + JoinWith(f, sep)
  {
    if |f| > 1 {
      assert ([[c] + f[0]] + f[1..])[1..] == f[1..];
    }
  }

  lemma NormalizeIsJoinOfFields(win: bool, path: string)
    ensures Normalize(win, path) == JoinWith(Fields(path, IsSep), GetSeparator(win))
  {
    if path != "" {
      CollapseIsJoinOfFields(path, GetSeparator(win));
    }
  }

  /** Normalising never changes the segments `split` sees. */
  lemma NormalizeKeepsSegments(win: bool, path: string)
    ensures Split(Normalize(win, path)) == Split(path)
  {
    if path != "" {
      CollapseKeepsFields(path, GetSeparator(win));
    }
  }

  /** `normalize` is idempotent. */
  lemma NormalizeIdempotent(win: bool, path: string)
    ensures Normalize(win, Normalize(win, path)) == Normalize(win, path)
  {
    if path != "" {
      var sep := GetSeparator(win);
      var n := Collapse(path, sep);
      CollapseIsJoinOfFields(n, sep);
      CollapseKeepsFields(path, sep);
      CollapseIsJoinOfFields(path, sep);
    }
  }

  // ---------------------------------------------------------------------
  // toUrl

  /** `toUrl` is idempotent. */
  lemma ToUrlIdempotent(path: string)
    ensures ToUrl(ToUrl(path)) == ToUrl(path)
  {
  }

  /** `toUrl` keeps every separator a separator, so it keeps the segments. */
  lemma {:induction false} ToUrlKeepsSegments(path: string)
    ensures Fields(ToUrl(path), IsSep) == Fields(path, IsSep)
    ensures Split(ToUrl(path)) == Split(path)
    decreases |path|
  {
    if path != "" {
      var u := ToUrl(path);
      ToUrlKeepsSegments(path[1..]);
      assert u[1..] == ToUrl(path[1..]);
    }
  }

  /** Converting a Windows-normalised path to a URL gives the
      POSIX-normalised path. */
  lemma {:induction false} UrlOfWindowsForm(path: string)
    ensures ToUrl(Normalize(true, path)) == Normalize(false, path)
  {
    if path != "" {
      CollapseUrl(path);
    }
  }

  lemma {:induction false} CollapseUrl(s: string)
    ensures ToUrl(Collapse(s, '\\')) == Collapse(s, '/')
    decreases |s|
  {
    if s != [] {
      var t := if IsSep(s[0]) then SkipSeps(s[1..]) else s[1..];
      CollapseUrl(t);
      var c := Collapse(s, '\\');
      assert c[1..] == Collapse(t, '\\');
    }
  }

  // ---------------------------------------------------------------------
  // getFirstDir

  /** The longest separator-free prefix. */
  function LeadingSegment(s: string): (r: string)
    ensures NoDelim(r, IsSep)
  {
    if s == [] || IsSep(s[0]) then [] else [s[0]] + LeadingSegment(s[1..])
  }

  lemma {:induction false} FirstFieldIsLeadingSegment(s: string)
    ensures Fields(s, IsSep)[0] == LeadingSegment(s)
    decreases |s|
  {
    if s != [] {
      FirstFieldIsLeadingSegment(s[1..]);
    }
  }

  lemma {:induction false} SkipSepsKeepsFields(s: string)
    ensures NonEmpty(Fields(SkipSeps(s), IsSep)) == NonEmpty(Fields(s, IsSep))
    decreases |s|
  {
    if s != [] && IsSep(s[0]) {
      FieldsDelimHead(s, IsSep);
      SkipSepsKeepsFields(s[1..]);
    }
  }

  /** `getFirstDir` gives the run of non-separator characters that follows
      the leading separators; it is "" exactly when the path holds nothing
      but separators. */
  lemma FirstDirIsLeadingSegment(path: string)
    ensures GetFirstDir(path) == LeadingSegment(SkipSeps(path))
    ensures GetFirstDir(path) == "" <==> AllDelim(path, IsSep)
  {
    var parts := Split(path);
    SplitEmptyIffOnlySeparators(path);
    assert GetFirstDir(path) == "" <==> parts == [];
    if path != "" {
      var t := SkipSeps(path);
      SkipSepsKeepsFields(path);
      assert parts == NonEmpty(Fields(t, IsSep));
      if t == "" {
        assert Fields(t, IsSep) == [""];
      } else {
        FirstFieldIsLeadingSegment(t);
        NonEmptyHead(Fields(t, IsSep));
      }
    }
  }

  lemma NonEmptyHead(f: seq<string>)
    requires |f| >= 1 && f[0] != ""
    ensures NonEmpty(f) != [] && NonEmpty(f)[0] == f[0]
  {
  }

  /** The first directory of a joined path is its first part. */
  lemma FirstDirOfJoin(win: bool, parts: seq<string>)
    requires |parts| >= 1
    requires forall k :: 0 <= k < |parts| ==> parts[k] != "" && NoDelim(parts[k], IsSep)
    ensures GetFirstDir(Join(win, parts)) == parts[0]
  {
    SplitJoin(win, parts);
  }

  // ---------------------------------------------------------------------
  // isAbsolute

  /** On POSIX, a normalised path is absolute exactly when the original
      started with a separator of either kind: `\a` becomes absolute. */
  lemma NormalizedPosixAbsolute(path: string)
    ensures IsAbsolute(false, Normalize(false, path)) <==> (path != "" && IsSep(path[0]))
  {
  }

  /** On Windows, a normalised path is absolute exactly when the original had
      a drive prefix: collapsing `\\` also erases the UNC prefix `\\`. */
  lemma NormalizedWindowsAbsolute(path: string)
    ensures IsAbsolute(true, Normalize(true, path)) <==> HasDrivePrefix(path)
  {
    if path != "" {
      var n := Collapse(path, '\\');
      assert !(|n| >= 2 && IsSep(n[0]) && IsSep(n[1]));
      if |path| >= 2 && !IsSep(path[0]) && !IsSep(path[1]) {
        var n1 := Collapse(path[1..], '\\');
        assert n == [path[0]] + n1;
        assert n1 == [path[1]] + Collapse(path[2..], '\\');
        assert path[1..][1..] == path[2..];
      } else if |path| >= 1 && !IsSep(path[0]) {
        assert n == [path[0]] + Collapse(path[1..], '\\');
      }
    }
  }
}
