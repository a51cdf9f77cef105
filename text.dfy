/** String helpers shared by the browser scripts and the backend: whitespace,
    trimming, the two ways of splitting a string (on maximal runs of
    delimiters, as a regular expression with `+` does, and on every single
    occurrence of one character, as `String.split(c)` and `str.split(c)` do),
    joining, and the lexicographic order Python's `sorted` uses on strings. */
module Text {

  /** ASCII whitespace, as `str.split()`, `str.strip()` and `String.trim()`
      see it (their non-ASCII whitespace is not modelled). */
  predicate IsSpace(c: char) {
    c == ' ' || c == '\t' || c == '\n' || c == '\r' || c == '\U{000B}' || c == '\U{000C}'
  }

  predicate NoDelim(s: string, delim: char -> bool) {
    forall i :: 0 <= i < |s| ==> !delim(s[i])
  }

  predicate AllDelim(s: string, delim: char -> bool) {
    forall i :: 0 <= i < |s| ==> delim(s[i])
  }

  // ---------------------------------------------------------------------
  // Trimming

  function TrimStart(s: string): (r: string)
    ensures r == "" || !IsSpace(r[0])
    ensures |r| <= |s| && r == s[|s| - |r|..]
    ensures AllDelim(s[..|s| - |r|], IsSpace)
  {
    if s != [] && IsSpace(s[0]) then TrimStart(s[1..]) else s
  }

  function TrimEnd(s: string): (r: string)
    ensures r == "" || !IsSpace(r[|r| - 1])
    ensures |r| <= |s| && r == s[..|r|]
    ensures AllDelim(s[|r|..], IsSpace)
  {
    if s != [] && IsSpace(s[|s| - 1]) then
      var t := s[..|s| - 1];
      var r := TrimEnd(t);
      assert t[..|r|] == s[..|r|];
      assert s[|r|..] == t[|r|..] + [s[|s| - 1]];
      r
    else s
  }

  /** `str.strip()` / `String.trim()`: drops leading and trailing whitespace. */
  function Trim(s: string): (r: string)
    ensures r == "" || (!IsSpace(r[0]) && !IsSpace(r[|r| - 1]))
    ensures r == "" <==> AllDelim(s, IsSpace)
    ensures exists i, j :: 0 <= i <= j <= |s| && r == s[i..j] && AllDelim(s[..i], IsSpace) && AllDelim(s[j..], IsSpace)
  {
    var t := TrimStart(s);
    TrimSlice(s, t, TrimEnd(t));
    TrimEnd(t)
  }

  /** Dropping a whitespace prefix and then a whitespace suffix leaves an
      inner slice, empty only when the whole string was whitespace. */
  lemma TrimSlice(s: string, t: string, r: string)
    requires |t| <= |s| && t == s[|s| - |t|..] && AllDelim(s[..|s| - |t|], IsSpace)
    requires t == "" || !IsSpace(t[0])
    requires |r| <= |t| && r == t[..|r|] && AllDelim(t[|r|..], IsSpace)
    ensures exists i, j :: 0 <= i <= j <= |s| && r == s[i..j] && AllDelim(s[..i], IsSpace) && AllDelim(s[j..], IsSpace)
    ensures r == "" ==> AllDelim(s, IsSpace)
  {
    var i := |s| - |t|;
    assert r == s[i..i + |r|] && s[i + |r|..] == t[|r|..];
    if r == "" {
      assert t[|r|..] == t;
      assert t == "";
      assert s[..|s| - |t|] == s;
    }
  }

  /** Trimming a string that has no whitespace at either end leaves it as it is. */
  lemma {:induction false} TrimUntouched(s: string)
    requires s == "" || (!IsSpace(s[0]) && !IsSpace(s[|s| - 1]))
    ensures Trim(s) == s
  {
  }

  /** Trimming removes exactly an all-whitespace tail after a word that ends
      in a non-space. */
  lemma {:induction false} TrimDropsTail(s: string, tail: string)
    requires s != "" && !IsSpace(s[0]) && !IsSpace(s[|s| - 1])
    requires AllDelim(tail, IsSpace)
    ensures Trim(s + tail) == s
    decreases |tail|
  {
    if tail == [] {
      assert s + tail == s;
      TrimUntouched(s);
    } else {
      var u := s + tail;
      assert TrimStart(u) == u;
      TrimEndDropsTail(s, tail);
    }
  }

  lemma {:induction false} TrimEndDropsTail(s: string, tail: string)
    requires s != "" && !IsSpace(s[|s| - 1])
    requires AllDelim(tail, IsSpace)
    ensures TrimEnd(s + tail) == s
    decreases |tail|
  {
    if tail == [] {
      assert s + tail == s;
    } else {
      var u := s + tail;
      assert u[..|u| - 1] == s + tail[..|tail| - 1];
      TrimEndDropsTail(s, tail[..|tail| - 1]);
    }
  }

  // ---------------------------------------------------------------------
  // Splitting on maximal runs of delimiters

  /** The pieces between maximal runs of delimiter characters, as
      `s.split(/[...]+/)` returns them in JavaScript: a leading run gives a
      leading "", a trailing run a trailing "", and the empty string gives
      [""]. */
  function Fields(s: string, delim: char -> bool): (r: seq<string>)
    ensures |r| >= 1
    ensures forall k :: 0 <= k < |r| ==> NoDelim(r[k], delim)
    decreases |s|
  {
    if s == [] then [""]
    else
      var rest := Fields(s[1..], delim);
      if delim(s[0]) then
        if |s| > 1 && delim(s[1]) then rest else [""] + rest
      else
        [[s[0]] + rest[0]] + rest[1..]
  }

  /** The non-empty strings of `xs`, in order (`filter(p => p.length > 0)`). */
  function NonEmpty(xs: seq<string>): (r: seq<string>)
    ensures |r| <= |xs|
    ensures forall k :: 0 <= k < |r| ==> r[k] != "" && r[k] in xs
    ensures forall x :: x in xs && x != "" ==> x in r
  {
    if xs == [] then []
    else (if xs[0] == "" then [] else [xs[0]]) + NonEmpty(xs[1..])
  }

  /** `str.split()` with no argument: the maximal runs of non-whitespace. */
  function Words(s: string): (r: seq<string>)
    ensures forall k :: 0 <= k < |r| ==> r[k] != "" && NoDelim(r[k], IsSpace)
  {
    NonEmpty(Fields(s, IsSpace))
  }

  lemma {:induction false} NonEmptyAppend(xs: seq<string>, ys: seq<string>)
    ensures NonEmpty(xs + ys) == NonEmpty(xs) + NonEmpty(ys)
  {
    if xs == [] {
      assert xs + ys == ys;
    } else {
      assert (xs + ys)[1..] == xs[1..] + ys;
      NonEmptyAppend(xs[1..], ys);
    }
  }

  lemma {:induction false} NonEmptyKeepsAll(xs: seq<string>)
    requires forall k :: 0 <= k < |xs| ==> xs[k] != ""
    ensures NonEmpty(xs) == xs
  {
    if xs != [] {
      NonEmptyKeepsAll(xs[1..]);
    }
  }

  /** A leading delimiter never contributes a non-empty field. */
  lemma FieldsDelimHead(s: string, delim: char -> bool)
    requires s != [] && delim(s[0])
    ensures NonEmpty(Fields(s, delim)) == NonEmpty(Fields(s[1..], delim))
  {
    var rest := Fields(s[1..], delim);
    if !(|s| > 1 && delim(s[1])) {
      NonEmptyAppend([""], rest);
    }
  }

  /** Prepending a word without delimiters glues it onto the first field. */
  lemma {:induction false} FieldsGlue(w: string, t: string, delim: char -> bool)
    requires NoDelim(w, delim)
    ensures Fields(w + t, delim) == [w + Fields(t, delim)[0]] + Fields(t, delim)[1..]
    decreases |w|
  {
    if w == [] {
      var f := Fields(t, delim);
      assert w + t == t;
      assert w + f[0] == f[0];
      assert f == [f[0]] + f[1..];
    } else {
      var u := w + t;
      assert u[1..] == w[1..] + t;
      FieldsGlue(w[1..], t, delim);
      assert [w[0]] + (w[1..] + Fields(t, delim)[0]) == w + Fields(t, delim)[0];
    }
  }

  /** Splitting on delimiter runs recovers the words joined by a delimiter. */
  lemma {:induction false} FieldsOfJoin(parts: seq<string>, d: char, delim: char -> bool)
    requires delim(d)
    requires |parts| >= 1
    requires forall k :: 0 <= k < |parts| ==> parts[k] != "" && NoDelim(parts[k], delim)
    ensures Fields(JoinWith(parts, d), delim) == parts
  {
    if |parts| == 1 {
      FieldsGlue(parts[0], "", delim);
      assert parts[0] + "" == parts[0];
    } else {
      var tail := JoinWith(parts[1..], d);
      FieldsOfJoin(parts[1..], d, delim);
      JoinWithHead(parts[1..], d);
      assert tail[0] == parts[1][0];
      var u := [d] + tail;
      assert u[1..] == tail;
      assert Fields(u, delim) == [""] + parts[1..];
      assert JoinWith(parts, d) == parts[0] + u;
      FieldsGlue(parts[0], u, delim);
      assert parts[0] + "" == parts[0];
    }
  }

  /** A string is split into no non-empty field exactly when it is made only
      of delimiters. */
  lemma {:induction false} NoFieldsIffAllDelim(s: string, delim: char -> bool)
    ensures NonEmpty(Fields(s, delim)) == [] <==> AllDelim(s, delim)
    decreases |s|
  {
    if s == [] {
    } else if delim(s[0]) {
      FieldsDelimHead(s, delim);
      NoFieldsIffAllDelim(s[1..], delim);
      if AllDelim(s[1..], delim) {
        forall i | 0 <= i < |s| ensures delim(s[i]) {
          if i > 0 { assert s[i] == s[1..][i - 1]; }
        }
      }
    } else {
      var f := Fields(s, delim);
      assert f[0] != "";
      assert f == [f[0]] + f[1..];
      NonEmptyAppend([f[0]], f[1..]);
    }
  }

  // ---------------------------------------------------------------------
  // Splitting on every occurrence of one character, and joining

  /** `xs.join(d)` / `d.join(xs)`. */
  function JoinWith(parts: seq<string>, d: char): string
  {
    if parts == [] then ""
    else if |parts| == 1 then parts[0]
    else parts[0] + [d] + JoinWith(parts[1..], d)
  }

  lemma {:induction false} JoinWithHead(parts: seq<string>, d: char)
    requires |parts| >= 1 && parts[0] != ""
    ensures JoinWith(parts, d) != "" && JoinWith(parts, d)[0] == parts[0][0]
  {
  }

  lemma {:induction false} JoinWithLast(parts: seq<string>, d: char)
    requires |parts| >= 1 && parts[|parts| - 1] != ""
    ensures var s := JoinWith(parts, d); s != "" && s[|s| - 1] == parts[|parts| - 1][|parts[|parts| - 1]| - 1]
  {
    if |parts| > 1 {
      JoinWithLast(parts[1..], d);
    }
  }

  /** Joining with one more part at the end appends the separator and it. */
  lemma {:induction false} JoinWithSnoc(parts: seq<string>, x: string, d: char)
    requires |parts| >= 1
    ensures JoinWith(parts + [x], d) == JoinWith(parts, d) + [d] + x
  {
    if |parts| > 1 {
      assert (parts + [x])[1..] == parts[1..] + [x];
      JoinWithSnoc(parts[1..], x, d);
    } else {
      assert (parts + [x])[1..] == [x];
    }
  }

  /** `s.split(d)` with a one-character separator: the pieces between single
      occurrences of `d`, empty pieces included. */
  function SplitOn(s: string, d: char): (r: seq<string>)
    ensures |r| >= 1
    ensures forall k :: 0 <= k < |r| ==> d !in r[k]
    ensures |r| > 1 <==> d in s
  {
    if s == [] then [""]
    else
      var rest := SplitOn(s[1..], d);
      if s[0] == d then [""] + rest
      else [[s[0]] + rest[0]] + rest[1..]
  }

  /** Joining the pieces again with the same character gives back the string. */
  lemma {:induction false} JoinSplitOn(s: string, d: char)
    ensures JoinWith(SplitOn(s, d), d) == s
  {
    if s != [] {
      var rest := SplitOn(s[1..], d);
      JoinSplitOn(s[1..], d);
      if s[0] == d {
        assert s == [d] + s[1..];
      } else if |rest| == 1 {
        assert s == [s[0]] + s[1..];
      } else {
        assert rest == [rest[0]] + rest[1..];
        assert s == [s[0]] + (rest[0] + [d] + JoinWith(rest[1..], d));
      }
    }
  }

  /** `s` is its pieces but the last, joined, then `d`, then the last piece. */
  lemma SplitOnLast(s: string, d: char)
    requires |SplitOn(s, d)| > 1
    ensures var p := SplitOn(s, d);
      s == JoinWith(p[..|p| - 1], d) + [d] + p[|p| - 1]
  {
    var p := SplitOn(s, d);
    var init := p[..|p| - 1];
    assert p == init + [p[|p| - 1]];
    JoinSplitOn(s, d);
    JoinWithSnoc(init, p[|p| - 1], d);
  }

  /** The first piece is the prefix of `s` before its first `d`. */
  lemma {:induction false} SplitOnFirst(s: string, d: char)
    ensures d in s ==> SplitOn(s, d)[0] + [d] <= s
    ensures d !in s ==> SplitOn(s, d) == [s]
  {
    if s != [] {
      SplitOnFirst(s[1..], d);
      assert s == [s[0]] + s[1..];
    }
  }

  // ---------------------------------------------------------------------
  // Lexicographic order on strings, by code point (Python's `<` on str)

  predicate Less(a: string, b: string) {
    if a == [] then b != []
    else b != [] && (a[0] < b[0] || (a[0] == b[0] && Less(a[1..], b[1..])))
  }

  lemma {:induction false} LessIrreflexive(a: string)
    ensures !Less(a, a)
  {
    if a != [] { LessIrreflexive(a[1..]); }
  }

  lemma {:induction false} LessTransitive(a: string, b: string, c: string)
    requires Less(a, b) && Less(b, c)
    ensures Less(a, c)
  {
    if a != [] && a[0] == b[0] && b[0] == c[0] {
      LessTransitive(a[1..], b[1..], c[1..]);
    }
  }

  lemma {:induction false} LessTotal(a: string, b: string)
    requires a != b
    ensures Less(a, b) || Less(b, a)
  {
    if a != [] && b != [] && a[0] == b[0] {
      assert a == [a[0]] + a[1..] && b == [b[0]] + b[1..];
      LessTotal(a[1..], b[1..]);
    }
  }

  /** Strictly ascending, hence also free of duplicates. */
  predicate StrictlyAscending(s: seq<string>) {
    forall i, j :: 0 <= i < j < |s| ==> Less(s[i], s[j])
  }

  /** Adds `x` to an ascending list of distinct strings, keeping it so. */
  function InsertUnique(x: string, s: seq<string>): (r: seq<string>)
    requires StrictlyAscending(s)
    ensures StrictlyAscending(r)
    ensures forall y :: y in r <==> y in s || y == x
  {
    if s == [] then [x]
    else if x == s[0] then s
    else if Less(x, s[0]) then
      assert forall j :: 0 < j < |s| ==> Less(x, s[j]) by {
        forall j | 0 < j < |s| ensures Less(x, s[j]) { LessTransitive(x, s[0], s[j]); }
      }
      [x] + s
    else
      LessTotal(x, s[0]);
      var t := InsertUnique(x, s[1..]);
      assert forall y :: y in s[1..] ==> Less(s[0], y);
      [s[0]] + t
  }
}
