/** The names and lists the backend (app.py) derives from a relative RTTM
    path: the file id, the place edited labels are saved to and looked up
    at, the URL the page fetches the audio from, and the category of a file.

    `os.path` is the POSIX flavour (`posixpath`, separator `/`), on which the
    server runs; `LABELS_DIR` is a parameter. */
module BackendPaths {
  import opened Text
  import PathUtils

  // ---------------------------------------------------------------------
  // posixpath

  predicate IsSlash(c: char) {
    c == '/'
  }

  /** `os.path.basename(p)`: everything after the last `/`. */
  function Basename(p: string): (r: string)
    ensures '/' !in r
    ensures |r| <= |p| && r == p[|p| - |r|..]
    ensures |r| < |p| ==> p[|p| - |r| - 1] == '/'
  {
    if p == "" || p[|p| - 1] == '/' then ""
    else Basename(p[..|p| - 1]) + [p[|p| - 1]]
  }

  /** Everything up to and including the last `/`. */
  function Head(p: string): (r: string)
    ensures r + Basename(p) == p
    ensures r == "" || r[|r| - 1] == '/'
  {
    p[..|p| - |Basename(p)|]
  }

  function RStripSlashes(s: string): (r: string)
    ensures r <= s
    ensures r == "" || r[|r| - 1] != '/'
    ensures forall i :: |r| <= i < |s| ==> s[i] == '/'
  {
    if s == "" || s[|s| - 1] != '/' then s else RStripSlashes(s[..|s| - 1])
  }

  /** `os.path.dirname(p)`: the head without its trailing slashes, unless
      the head is made of slashes only. */
  function Dirname(p: string): (r: string)
    ensures r <= p && |r| + |Basename(p)| <= |p|
    ensures forall i :: |r| <= i < |p| - |Basename(p)| ==> p[i] == '/'
    ensures r == "" <==> '/' !in p
    ensures r != "" && r[|r| - 1] == '/' ==> AllDelim(r, IsSlash) && r + Basename(p) == p
  {
    var head := Head(p);
    var r := if head != "" && !AllDelim(head, IsSlash) then RStripSlashes(head) else head;
    DirnameShape(p, head, r);
    r
  }

  lemma DirnameShape(p: string, head: string, r: string)
    requires head + Basename(p) == p && (head == "" || head[|head| - 1] == '/')
    requires r == if head != "" && !AllDelim(head, IsSlash) then RStripSlashes(head) else head
    ensures r <= p && |r| + |Basename(p)| <= |p|
    ensures forall i :: |r| <= i < |p| - |Basename(p)| ==> p[i] == '/'
    ensures r == "" <==> '/' !in p
    ensures r != "" && r[|r| - 1] == '/' ==> AllDelim(r, IsSlash) && r + Basename(p) == p
  {
    if head == "" {
      NoHead(p);
    } else if AllDelim(head, IsSlash) {
      SlashesHead(p, head);
    } else {
      StrippedHead(p, head);
    }
  }

  lemma NoHead(p: string)
    requires "" + Basename(p) == p
    ensures '/' !in p
  {
    assert p == Basename(p);
  }

  lemma SlashesHead(p: string, head: string)
    requires head + Basename(p) == p && head != "" && head[|head| - 1] == '/'
    ensures head <= p && |head| + |Basename(p)| == |p| && '/' in p
  {
    assert p[|head| - 1] == head[|head| - 1];
  }

  lemma StrippedHead(p: string, head: string)
    requires head + Basename(p) == p && head != "" && head[|head| - 1] == '/'
    requires !AllDelim(head, IsSlash)
    ensures var r := RStripSlashes(head);
      && r != "" && r <= p && |r| + |Basename(p)| <= |p| && r[|r| - 1] != '/' && '/' in p
      && forall i :: |r| <= i < |p| - |Basename(p)| ==> p[i] == '/'
  {
    var r := RStripSlashes(head);
    assert head <= p;
    assert p[|head| - 1] == head[|head| - 1];
    var k :| 0 <= k < |head| && head[k] != '/';
    assert k < |r|;
  }

  /** `os.path.join(a, b)`: an absolute `b` replaces `a`; otherwise a `/` is
      put between them unless `a` is empty or already ends with one. With
      more components, `os.path.join(a, b, c)` is `Join2(Join2(a, b), c)`.
      The result always ends with `b`; a relative `b` is appended to `a`,
      after a `/` exactly when `a` is non-empty and does not end with one. */
  function Join2(a: string, b: string): (r: string)
    ensures |b| <= |r| && r[|r| - |b|..] == b
    ensures b != "" && b[0] == '/' ==> r == b
    ensures (b == "" || b[0] != '/') ==> a <= r && (r == a + b || r == a + "/" + b)
    ensures (b == "" || b[0] != '/') ==> (r == a + "/" + b <==> a != "" && a[|a| - 1] != '/')
  {
    if b != "" && b[0] == '/' then b
    else if a == "" || a[|a| - 1] == '/' then a + b
    else a + "/" + b
  }

  /** Joining an empty component only adds a `/`, which the next component
      would have brought anyway. */
  lemma JoinEmptyComponent(a: string, b: string)
    ensures Join2(Join2(a, ""), b) == Join2(a, b)
  {
    if a == "" || a[|a| - 1] == '/' {
      assert Join2(a, "") == a + "";
      assert a + "" == a;
    } else {
      var a1 := a + "/";
      assert Join2(a, "") == a1 + "";
      assert a1 + "" == a1 && a1[|a1| - 1] == '/';
      if b == "" || b[0] != '/' {
        assert a1 + b == a + "/" + b;
      }
    }
  }

  /** A component that is not absolute extends the path. */
  lemma Join2Extends(a: string, b: string)
    requires b == "" || b[0] != '/'
    ensures a <= Join2(a, b)
  {
  }

  // ---------------------------------------------------------------------
  // File id and the saved-labels path

  /** `s` starts with `.rttm`. */
  predicate StartsWithExtension(s: string) {
    |s| >= 5 && s[0] == '.' && s[1] == 'r' && s[2] == 't' && s[3] == 't' && s[4] == 'm'
  }

  /** `s.replace(".rttm", "")`: removes every occurrence, scanning from the
      left. */
  function RemoveExtension(s: string): (r: string)
    ensures |r| <= |s|
    ensures '/' !in s ==> '/' !in r
  {
    if StartsWithExtension(s) then RemoveExtension(s[5..])
    else if s == "" then ""
    else [s[0]] + RemoveExtension(s[1..])
  }

  /** `os.path.basename(rttm_file).replace('.rttm', '')`. */
  function FileId(rttmFile: string): (r: string)
    ensures '/' !in r
  {
    RemoveExtension(Basename(rttmFile))
  }

  /** `.rttm` occurs nowhere in `x`. */
  predicate NoExtensionIn(x: string) {
    forall i :: 0 <= i <= |x| ==> !StartsWithExtension(x[i..])
  }

  lemma {:induction false} RemoveExtensionOfName(x: string)
    requires NoExtensionIn(x)
    ensures RemoveExtension(x + ".rttm") == x
  {
    var s := x + ".rttm";
    if x == "" {
      assert StartsWithExtension(s) && s[5..] == "";
    } else {
      if |x| >= 5 {
        assert x[0..] == x;
        assert !StartsWithExtension(s) by {
          assert forall k :: 0 <= k < 5 ==> s[k] == x[k];
        }
      } else {
        assert s[|x|] == '.';
      }
      assert s[1..] == x[1..] + ".rttm";
      assert NoExtensionIn(x[1..]) by {
        forall i | 0 <= i <= |x[1..]| ensures !StartsWithExtension(x[1..][i..]) {
          assert x[1..][i..] == x[i + 1..];
        }
      }
      RemoveExtensionOfName(x[1..]);
    }
  }

  /** The basename of a path ending in a name without `/` is that name. */
  lemma BasenameOfSuffix(dir: string, name: string)
    requires dir == "" || dir[|dir| - 1] == '/'
    requires '/' !in name
    ensures Basename(dir + name) == name
    ensures Head(dir + name) == dir
  {
    BasenameOfName(dir, name);
    assert Head(dir + name) + name == dir + name;
  }

  lemma {:induction false} BasenameOfName(dir: string, name: string)
    requires dir == "" || dir[|dir| - 1] == '/'
    requires '/' !in name
    ensures Basename(dir + name) == name
    decreases |name|
  {
    if name == "" {
      assert dir + name == dir;
    } else {
      var init := name[..|name| - 1];
      InitHasNoSlash(name);
      BasenameStep(dir, name);
      BasenameOfName(dir, init);
      assert init + [name[|name| - 1]] == name;
    }
  }

  lemma InitHasNoSlash(name: string)
    requires name != "" && '/' !in name
    ensures '/' !in name[..|name| - 1] && name[|name| - 1] != '/'
  {
    assert name[|name| - 1] in name;
    var init := name[..|name| - 1];
    forall c | c in init ensures c != '/' {
      var i :| 0 <= i < |init| && init[i] == c;
      assert name[i] == c;
    }
  }

  lemma BasenameStep(dir: string, name: string)
    requires name != "" && name[|name| - 1] != '/'
    ensures Basename(dir + name) == Basename(dir + name[..|name| - 1]) + [name[|name| - 1]]
  {
    DropLastOfAppend(dir, name);
  }

  lemma DropLastOfAppend(dir: string, name: string)
    requires name != ""
    ensures var p := dir + name; p != "" && p[|p| - 1] == name[|name| - 1] && p[..|p| - 1] == dir + name[..|name| - 1]
  {
    var p := dir + name;
    assert p[..|p| - 1] == dir + name[..|name| - 1];
  }

  /** The id of `dir/name.rttm` is `name`, when the name contains neither `/`
      nor `.rttm`. */
  lemma FileIdOfRttmFile(dir: string, name: string)
    requires '/' !in name && NoExtensionIn(name)
    ensures FileId(dir + "/" + name + ".rttm") == name
    ensures FileId(name + ".rttm") == name
  {
    assert '/' !in name + ".rttm";
    BasenameOfSuffix(dir + "/", name + ".rttm");
    assert dir + "/" + name + ".rttm" == (dir + "/") + (name + ".rttm");
    BasenameOfSuffix("", name + ".rttm");
    assert "" + (name + ".rttm") == name + ".rttm";
    RemoveExtensionOfName(name);
  }

  /** Every occurrence of `.rttm` goes, not only the extension: the id of
      `dir/a.rttmb.rttm` is `ab`. */
  lemma FileIdRemovesInnerExtension(dir: string, a: string, b: string)
    requires '/' !in a && '/' !in b && NoExtensionIn(a) && NoExtensionIn(b)
    ensures FileId(dir + "/" + a + ".rttm" + b + ".rttm") == a + b
  {
    var name := a + ".rttm" + b + ".rttm";
    assert '/' !in name by {
      forall c | c in name ensures c != '/' {
        assert c in a || c in ".rttm" || c in b;
      }
    }
    assert dir + "/" + a + ".rttm" + b + ".rttm" == (dir + "/") + name;
    BasenameOfSuffix(dir + "/", name);
    RemoveEveryExtension(a, b);
  }

  lemma RemoveEveryExtension(a: string, b: string)
    requires NoExtensionIn(a) && NoExtensionIn(b)
    ensures RemoveExtension(a + ".rttm" + b + ".rttm") == a + b
  {
    var t := ".rttm" + (b + ".rttm");
    assert a + ".rttm" + b + ".rttm" == a + t;
    forall i | 0 <= i < |a| ensures !StartsWithExtension((a + t)[i..]) {
      var u := (a + t)[i..];
      if |a| - i >= 5 {
        assert !StartsWithExtension(a[i..]);
        assert forall k :: 0 <= k < 5 ==> u[k] == a[i..][k];
      } else {
        assert u[|a| - i] == '.';
      }
    }
    KeepPrefix(a, t);
    assert t == ".rttm" + (b + ".rttm");
    DropLeadingExtension(b + ".rttm");
    RemoveExtensionOfName(b);
  }

  /** A prefix in which no occurrence of `.rttm` starts is kept as it is. */
  lemma {:induction false} KeepPrefix(x: string, t: string)
    requires forall i :: 0 <= i < |x| ==> !StartsWithExtension((x + t)[i..])
    ensures RemoveExtension(x + t) == x + RemoveExtension(t)
  {
    if x != "" {
      KeepHead(x, t);
      NoStartAfterHead(x, t);
      KeepPrefix(x[1..], t);
      ConsAssoc(x, RemoveExtension(t));
    } else {
      assert x + t == t;
    }
  }

  lemma KeepHead(x: string, t: string)
    requires x != "" && !StartsWithExtension((x + t)[0..])
    ensures RemoveExtension(x + t) == [x[0]] + RemoveExtension(x[1..] + t)
  {
    var u := x + t;
    assert u[0..] == u;
    assert u[1..] == x[1..] + t;
  }

  lemma ConsAssoc(x: string, r: string)
    requires x != ""
    ensures [x[0]] + (x[1..] + r) == x + r
  {
    assert x == [x[0]] + x[1..];
  }

  lemma NoStartAfterHead(x: string, t: string)
    requires x != ""
    requires forall i :: 0 <= i < |x| ==> !StartsWithExtension((x + t)[i..])
    ensures forall i :: 0 <= i < |x[1..]| ==> !StartsWithExtension((x[1..] + t)[i..])
  {
    forall i | 0 <= i < |x[1..]| ensures !StartsWithExtension((x[1..] + t)[i..]) {
      assert (x[1..] + t)[i..] == (x + t)[i + 1..];
    }
  }

  lemma DropLeadingExtension(t: string)
    ensures RemoveExtension(".rttm" + t) == RemoveExtension(t)
  {
    assert (".rttm" + t)[5..] == t;
  }

  /** Where edited labels of `rttm_file` are looked up (`check_saved_edits`,
      `load_rttm`): `LABELS_DIR/rel_dir/file_id/file_id.rttm`, where `rel_dir`
      is the directory of the RTTM file and is left out when it is empty. The
      saved copy is named after the file id of the original, so it has the
      same file id whenever that id holds no `.rttm` of its own. */
  function SavedRttmPath(labelsDir: string, rttmFile: string): (r: string)
    ensures Basename(r) == FileId(rttmFile) + ".rttm"
    ensures NoExtensionIn(FileId(rttmFile)) ==> FileId(r) == FileId(rttmFile)
    ensures var relDir, fileId := Dirname(rttmFile), FileId(rttmFile);
      labelsDir != "" && labelsDir[|labelsDir| - 1] != '/' && (rttmFile == "" || rttmFile[0] != '/') && fileId != "" ==>
        r == labelsDir + "/" + (if relDir == "" then "" else relDir + "/") + fileId + "/" + fileId + ".rttm"
  {
    RelativeDirname(rttmFile);
    SavedPathOf(labelsDir, Dirname(rttmFile), FileId(rttmFile))
  }

  /** The directory of a relative path neither starts nor ends with `/`. */
  lemma RelativeDirname(p: string)
    ensures p == "" || p[0] != '/' ==> var d := Dirname(p); d == "" || (d[0] != '/' && d[|d| - 1] != '/')
  {
    if p == "" || p[0] != '/' {
      DirnameOfRelative(p);
    }
  }

  /** `os.path.join(LABELS_DIR, rel_dir, file_id, file_id + '.rttm')`, or
      without `rel_dir` when it is empty: its last component is
      `file_id.rttm`. */
  function SavedPathOf(labelsDir: string, relDir: string, fileId: string): (r: string)
    ensures '/' !in fileId ==> Basename(r) == fileId + ".rttm"
    ensures '/' !in fileId && NoExtensionIn(fileId) ==> FileId(r) == fileId
    ensures labelsDir != "" && labelsDir[|labelsDir| - 1] != '/' &&
            (relDir == "" || (relDir[0] != '/' && relDir[|relDir| - 1] != '/')) && fileId != "" && '/' !in fileId ==>
              r == labelsDir + "/" + (if relDir == "" then "" else relDir + "/") + fileId + "/" + fileId + ".rttm"
  {
    var file := fileId + ".rttm";
    var dir := if relDir != "" then Join2(Join2(labelsDir, relDir), fileId) else Join2(labelsDir, fileId);
    SavedFileName(dir, fileId);
    SavedLayout(labelsDir, relDir, fileId);
    Join2(dir, file)
  }

  /** The three or four joined components, spelled out. */
  lemma SavedLayout(labelsDir: string, relDir: string, fileId: string)
    ensures labelsDir != "" && labelsDir[|labelsDir| - 1] != '/' &&
            (relDir == "" || (relDir[0] != '/' && relDir[|relDir| - 1] != '/')) && fileId != "" && '/' !in fileId ==>
              var dir := if relDir != "" then Join2(Join2(labelsDir, relDir), fileId) else Join2(labelsDir, fileId);
              Join2(dir, fileId + ".rttm") == labelsDir + "/" + (if relDir == "" then "" else relDir + "/") + fileId + "/" + fileId + ".rttm"
  {
    if labelsDir != "" && labelsDir[|labelsDir| - 1] != '/' &&
       (relDir == "" || (relDir[0] != '/' && relDir[|relDir| - 1] != '/')) && fileId != "" && '/' !in fileId {
      assert fileId[0] in fileId && fileId[|fileId| - 1] in fileId;
      var file := fileId + ".rttm";
      assert file[0] == fileId[0];
      if relDir != "" {
        var d1 := JoinSlash(labelsDir, relDir);
        var d2 := JoinSlash(d1, fileId);
        var r := JoinSlash(d2, file);
        AppendAssoc(labelsDir + "/", relDir, "/");
        AppendAssoc(d2 + "/", fileId, ".rttm");
      } else {
        var d2 := JoinSlash(labelsDir, fileId);
        var r := JoinSlash(d2, file);
        assert labelsDir + "/" + "" == labelsDir + "/";
        AppendAssoc(d2 + "/", fileId, ".rttm");
      }
    }
  }

  /** The saved file is named `file_id.rttm`, so its id is `file_id`. */
  lemma SavedFileName(dir: string, fileId: string)
    ensures '/' !in fileId ==> Basename(Join2(dir, fileId + ".rttm")) == fileId + ".rttm"
    ensures '/' !in fileId && NoExtensionIn(fileId) ==> FileId(Join2(dir, fileId + ".rttm")) == fileId
  {
    var file := fileId + ".rttm";
    if '/' !in fileId {
      assert file[|file| - 1] in file;
      assert '/' !in file;
      JoinName(dir, file);
      if NoExtensionIn(fileId) {
        RemoveExtensionOfName(fileId);
      }
    }
  }

  /** A relative, non-empty component joined onto a directory without a
      trailing `/` goes after one `/`, and the result ends as it does. */
  lemma JoinSlash(a: string, b: string) returns (r: string)
    requires a != "" && a[|a| - 1] != '/'
    requires b != "" && b[0] != '/' && b[|b| - 1] != '/'
    ensures r == Join2(a, b) && r == a + "/" + b
    ensures r != "" && r[|r| - 1] != '/'
  {
    r := a + "/" + b;
    assert r[|r| - 1] == b[|b| - 1];
  }

  /** The directory `save_labels` writes to: a directory named after the
      file id. */
  function SaveOutputDir(labelsDir: string, rttmPath: string, fileId: string): (r: string)
    ensures fileId != "" && '/' !in fileId ==> Basename(r) == fileId && r != "" && r[|r| - 1] != '/'
  {
    var dir := if rttmPath != "" then Join2(labelsDir, Dirname(rttmPath)) else labelsDir;
    JoinName(dir, fileId);
    assert fileId != "" && '/' !in fileId ==> fileId[|fileId| - 1] in fileId;
    Join2(dir, fileId)
  }

  /** The main RTTM file `save_labels` writes: `file_id.rttm` inside the
      output directory, as `os.path.split` sees it. */
  function SaveOutputPath(labelsDir: string, rttmPath: string, fileId: string): (r: string)
    ensures fileId != "" && '/' !in fileId ==>
              Dirname(r) == SaveOutputDir(labelsDir, rttmPath, fileId) && Basename(r) == fileId + ".rttm"
  {
    var dir := SaveOutputDir(labelsDir, rttmPath, fileId);
    OutputFileName(dir, fileId);
    Join2(dir, fileId + ".rttm")
  }

  lemma OutputFileName(dir: string, fileId: string)
    requires fileId != "" && '/' !in fileId ==> dir != "" && dir[|dir| - 1] != '/'
    ensures fileId != "" && '/' !in fileId ==>
              Dirname(Join2(dir, fileId + ".rttm")) == dir && Basename(Join2(dir, fileId + ".rttm")) == fileId + ".rttm"
  {
    var file := fileId + ".rttm";
    if fileId != "" && '/' !in fileId {
      assert file[|file| - 1] in file;
      assert '/' !in file;
      JoinName(dir, file);
    }
  }

  /** A `/`-free, non-empty name joined onto a directory is the basename of
      the result, and a directory without a trailing `/` is its dirname. */
  lemma JoinName(d: string, name: string)
    ensures name != "" && '/' !in name ==> Basename(Join2(d, name)) == name
    ensures name != "" && '/' !in name && (d == "" || d[|d| - 1] != '/') ==> Dirname(Join2(d, name)) == d
  {
    if name != "" && '/' !in name {
      assert name[0] in name;
      if d != "" && d[|d| - 1] == '/' {
        BasenameOfSuffix(d, name);
      } else {
        SplitName(d, name);
      }
    }
  }

  /** Labels saved for a file are found where loading looks for them: the
      page sends back the file id the backend derived from the same path. */
  lemma SaveThenFind(labelsDir: string, rttmFile: string)
    ensures SaveOutputPath(labelsDir, rttmFile, FileId(rttmFile)) == SavedRttmPath(labelsDir, rttmFile)
  {
    var fileId := FileId(rttmFile);
    if rttmFile != "" && Dirname(rttmFile) == "" {
      JoinEmptyComponent(labelsDir, fileId);
    }
  }

  /** A relative component goes under `a/`. */
  lemma Join2UnderDir(a: string, b: string)
    requires a != "" && a[|a| - 1] != '/'
    requires b == "" || b[0] != '/'
    ensures a + "/" <= Join2(a, b)
  {
    assert Join2(a, b) == (a + "/") + b;
  }

  lemma PrefixTransitive(p: string, a: string, b: string)
    requires p <= a && a <= b
    ensures p <= b
  {
    assert b[..|p|] == a[..|p|];
  }

  /** Joining two relative components keeps every prefix. */
  lemma Join2TwiceExtends(p: string, a: string, b: string, c: string)
    requires p <= a
    requires b == "" || b[0] != '/'
    requires c == "" || c[0] != '/'
    ensures p <= Join2(Join2(a, b), c)
  {
    Join2Extends(a, b);
    Join2Extends(Join2(a, b), c);
    PrefixTransitive(p, a, Join2(a, b));
    PrefixTransitive(p, Join2(a, b), Join2(Join2(a, b), c));
  }

  /** The saved path lies under `LABELS_DIR` when the RTTM path is relative. */
  lemma SavedPathUnderLabels(labelsDir: string, rttmFile: string)
    requires labelsDir != "" && labelsDir[|labelsDir| - 1] != '/'
    requires rttmFile == "" || rttmFile[0] != '/'
    ensures labelsDir + "/" <= SavedRttmPath(labelsDir, rttmFile)
  {
    FileIdRelative(rttmFile);
    DirnameOfRelative(rttmFile);
    SavedPathOfUnderLabels(labelsDir, Dirname(rttmFile), FileId(rttmFile));
  }

  lemma FileIdRelative(rttmFile: string)
    ensures FileId(rttmFile) == "" || FileId(rttmFile)[0] != '/'
  {
    var fileId := FileId(rttmFile);
    if fileId != "" { assert fileId[0] in fileId; }
  }

  lemma DirnameOfRelative(p: string)
    requires p == "" || p[0] != '/'
    ensures Dirname(p) == "" || Dirname(p)[0] != '/'
  {
    var d := Dirname(p);
    if d != "" { assert d[0] == p[0]; }
  }

  lemma SavedPathOfUnderLabels(labelsDir: string, relDir: string, fileId: string)
    requires labelsDir != "" && labelsDir[|labelsDir| - 1] != '/'
    requires relDir == "" || relDir[0] != '/'
    requires fileId == "" || fileId[0] != '/'
    ensures labelsDir + "/" <= SavedPathOf(labelsDir, relDir, fileId)
  {
    var file := fileId + ".rttm";
    assert file[0] != '/' by {
      if fileId != "" { assert file[0] == fileId[0]; }
    }
    if relDir != "" {
      Join2UnderDir(labelsDir, relDir);
      Join2TwiceExtends(labelsDir + "/", Join2(labelsDir, relDir), fileId, file);
    } else {
      Join2UnderDir(labelsDir, fileId);
      Join2Extends(Join2(labelsDir, fileId), file);
      PrefixTransitive(labelsDir + "/", Join2(labelsDir, fileId), Join2(Join2(labelsDir, fileId), file));
    }
  }

  /** An absolute RTTM path leaves `LABELS_DIR` out of the saved path
      altogether. */
  lemma AbsoluteRttmPathEscapes(labelsDir: string, otherDir: string, rttmFile: string)
    requires rttmFile != "" && rttmFile[0] == '/'
    ensures SavedRttmPath(labelsDir, rttmFile) == SavedRttmPath(otherDir, rttmFile)
    ensures Dirname(rttmFile) <= SavedRttmPath(labelsDir, rttmFile)
  {
    DirnameOfAbsolute(rttmFile);
    FileIdRelative(rttmFile);
    AbsoluteDirEscapes(labelsDir, otherDir, Dirname(rttmFile), FileId(rttmFile));
  }

  /** The directory of an absolute path is absolute. */
  lemma DirnameOfAbsolute(p: string)
    requires p != "" && p[0] == '/'
    ensures Dirname(p) != "" && Dirname(p)[0] == '/'
  {
    var b := Basename(p);
    assert p[0] in p && p[0..] == p;
    assert b != p;
    var head := Head(p);
    assert head != "" && head[0] == '/' by { assert head + b == p; }
    if !AllDelim(head, IsSlash) {
      var r := RStripSlashes(head);
      var i :| 0 <= i < |head| && !IsSlash(head[i]);
      assert i < |r|;
      assert r[0] == head[0];
    }
  }

  lemma AbsoluteDirEscapes(labelsDir: string, otherDir: string, relDir: string, fileId: string)
    requires relDir != "" && relDir[0] == '/'
    requires fileId == "" || fileId[0] != '/'
    ensures SavedPathOf(labelsDir, relDir, fileId) == SavedPathOf(otherDir, relDir, fileId)
    ensures relDir <= SavedPathOf(labelsDir, relDir, fileId)
  {
    var file := fileId + ".rttm";
    assert file[0] != '/' by {
      if fileId != "" { assert file[0] == fileId[0]; }
    }
    assert Join2(labelsDir, relDir) == relDir && Join2(otherDir, relDir) == relDir;
    Join2TwiceExtends(relDir, relDir, fileId, file);
  }

  // ---------------------------------------------------------------------
  // Audio URL

  /** The path part after `/audio/` in the URL `load_rttm` returns: its
      last component is `file_id.wav`. */
  function AudioUrlPath(rttmFile: string): (r: string)
    ensures Basename(r) == FileId(rttmFile) + ".wav"
  {
    var rttmDir := Dirname(rttmFile);
    var urlDir := if rttmDir != "" then PathUtils.ToUrl(rttmDir) else "";
    var fileId := FileId(rttmFile);
    AudioNameLast(urlDir, fileId);
    if urlDir != "" then urlDir + "/" + fileId + ".wav" else fileId + ".wav"
  }

  lemma AudioNameLast(urlDir: string, fileId: string)
    requires '/' !in fileId
    ensures Basename(if urlDir != "" then urlDir + "/" + fileId + ".wav" else fileId + ".wav") == fileId + ".wav"
  {
    var name := fileId + ".wav";
    AudioNameHasNoSlash(fileId);
    if urlDir != "" {
      assert urlDir + "/" + fileId + ".wav" == (urlDir + "/") + name;
      BasenameOfSuffix(urlDir + "/", name);
    } else {
      assert "" + name == name;
      BasenameOfSuffix("", name);
    }
  }

  /** The audio URL of `load_rttm`. */
  function AudioUrl(rttmFile: string): (r: string)
    ensures "/audio/" <= r
  {
    "/audio/" + AudioUrlPath(rttmFile)
  }

  /** `os.path.split` of `d/name`, or of `name` alone when `d` is empty,
      gives back `d` and `name`. */
  lemma SplitName(d: string, name: string)
    requires d == "" || d[|d| - 1] != '/'
    requires '/' !in name
    ensures var u := if d != "" then d + "/" + name else name;
      Dirname(u) == d && Basename(u) == name
  {
    if d != "" {
      SplitJoined(d, name);
    } else {
      SplitBare(name);
    }
  }

  lemma SplitJoined(d: string, name: string)
    requires d != "" && d[|d| - 1] != '/' && '/' !in name
    ensures Dirname(d + "/" + name) == d
    ensures Basename(d + "/" + name) == name
  {
    AppendAssoc(d, "/", name);
    BasenameOfSuffix(d + "/", name);
    StripOneSlash(d);
  }

  lemma SplitBare(name: string)
    requires '/' !in name
    ensures Dirname(name) == "" && Basename(name) == name
  {
    assert "" + name == name;
    BasenameOfSuffix("", name);
  }

  lemma AppendAssoc(a: string, b: string, c: string)
    ensures a + b + c == a + (b + c)
  {
  }

  /** Stripping the trailing slash of `d/` gives `d` back. */
  lemma StripOneSlash(d: string)
    requires d != "" && d[|d| - 1] != '/'
    ensures !AllDelim(d + "/", IsSlash)
    ensures RStripSlashes(d + "/") == d
  {
    var head := d + "/";
    assert head[|d| - 1] == d[|d| - 1];
    assert head[..|head| - 1] == d;
  }

  lemma AudioUrlPathShape(rttmFile: string)
    ensures var d := PathUtils.ToUrl(Dirname(rttmFile));
      AudioUrlPath(rttmFile) == if d != "" then d + "/" + (FileId(rttmFile) + ".wav") else FileId(rttmFile) + ".wav"
  {
    var rttmDir := Dirname(rttmFile);
    assert rttmDir == "" ==> PathUtils.ToUrl(rttmDir) == "";
    assert |PathUtils.ToUrl(rttmDir)| == |rttmDir|;
  }

  lemma AudioNameHasNoSlash(fileId: string)
    requires '/' !in fileId
    ensures '/' !in fileId + ".wav"
  {
  }

  /** `serve_audio` splits the URL path back into the directory (the RTTM
      file's directory with forward slashes) and the file name
      `file_id.wav`. */
  lemma AudioUrlSplits(rttmFile: string)
    ensures var d := PathUtils.ToUrl(Dirname(rttmFile));
      d == "" || d[|d| - 1] != '/' ==>
        Dirname(AudioUrlPath(rttmFile)) == d &&
        Basename(AudioUrlPath(rttmFile)) == FileId(rttmFile) + ".wav"
  {
    var d := PathUtils.ToUrl(Dirname(rttmFile));
    AudioUrlPathShape(rttmFile);
    AudioNameHasNoSlash(FileId(rttmFile));
    if d == "" || d[|d| - 1] != '/' {
      SplitName(d, FileId(rttmFile) + ".wav");
    }
  }

  // ---------------------------------------------------------------------
  // Categories

  /** `parts = rel_path.split(os.sep)`; `parts[0] if len(parts) > 1 else
      "root"`. */
  function Category(relPath: string): (r: string)
    ensures '/' in relPath ==> '/' !in r && r + "/" <= relPath
    ensures '/' !in relPath ==> r == "root"
  {
    SplitOnFirst(relPath, '/');
    var parts := SplitOn(relPath, '/');
    if |parts| > 1 then parts[0] else "root"
  }

  /** The category loop of `update_paths` (and of `index`), then
      `sorted(list(categories))`: every category once, in ascending order. */
  method CategoryList(files: seq<string>) returns (categories: seq<string>)
    ensures StrictlyAscending(categories)
    ensures forall c :: c in categories <==> exists f :: f in files && Category(f) == c
  {
    categories := [];
    for k := 0 to |files|
      invariant StrictlyAscending(categories)
      invariant forall c :: c in categories <==> exists f :: f in files[..k] && Category(f) == c
    {
      assert files[..k + 1] == files[..k] + [files[k]];
      categories := InsertUnique(Category(files[k]), categories);
    }
    assert files[..|files|] == files;
  }
}
