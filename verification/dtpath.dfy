/**
 * Devicetree paths as plain strings (the `DTPath` helpers): splitting a
 * path into node names, POSIX-like joining and normalisation in which the
 * devicetree root is its own parent, and the head/tail split behind
 * `dirname` and `basename`.
 */
module DTPath {
  import opened Wrappers
  import PyStr

  /** A node name as it appears in a path: non-empty, without '/'. */
  predicate IsNodeName(name: string) {
    name != "" && '/' !in name
  }

  /** A path component that normalisation keeps as it is. */
  predicate IsNormalName(c: string) {
    c != "" && c != "." && c != ".." && '/' !in c
  }

  /**
   * The path of a node: the root "/", or '/'-separated node names under
   * it (absolute, no empty name, no trailing '/').
   */
  predicate Rooted(path: string) {
    path != "" && path[0] == '/' && (path == "/" || path[|path| - 1] != '/')
    && forall k, j :: 0 < k < |path| && 0 <= j < k && k == j + 1 ==> !(path[j] == '/' && path[k] == '/')
  }

  /**
   * The node names of the parts of a split path: a leading empty part is
   * the root "/", and one trailing empty part is dropped.
   */
  function Names(splits: seq<string>): (r: seq<string>)
    requires |splits| >= 1
  {
    var named := if splits[0] == "" then splits[0 := "/"] else splits;
    if named[|named| - 1] == "" then named[..|named| - 1] else named
  }

  /** `DTPath.split()`: the node names of a path. */
  function Split(path: string): (r: seq<string>)
    ensures path == "" <==> r == []
    ensures path != "" && path[0] == '/' ==> r[0] == "/"
  {
    if path == "" then [] else Names(PyStr.Split(path, '/'))
  }

  /** Only a path ending in "//" can leave an empty last name after `split`. */
  lemma SplitLastName(path: string)
    requires path != "" && !PyStr.EndsWith(path, "//")
    ensures var r := Split(path); r[|r| - 1] != ""
  {
    var x := path[|path| - 1];
    var init := path[..|path| - 1];
    assert path == init + [x];
    PyStr.SplitSnoc(init, x, '/');
    if x == '/' && init != [] {
      assert path[|path| - 2..] == [init[|init| - 1], x];
      PyStr.SplitLastEmpty(init, '/');
    }
  }

  /** `DTPath.join()` of two paths, as `posixpath.join` does it. */
  function JoinPath(a: string, b: string): (r: string)
    ensures b != "" && b[0] == '/' ==> r == b
    ensures !(b != "" && b[0] == '/') ==> PyStr.EndsWith(r, b) && a <= r
  {
    if b != "" && b[0] == '/' then b
    else if a == "" || a[|a| - 1] == '/' then a + b
    else a + "/" + b
  }

  lemma NamesSnoc(sp: seq<string>, name: string)
    requires |sp| >= 2 && sp[0] == "" && sp[|sp| - 1] != "" && name != ""
    ensures Names(sp + [name]) == Names(sp) + [name]
  {
    assert (sp + [name])[0 := "/"] == sp[0 := "/"] + [name];
  }

  lemma SplitRootChild(name: string)
    requires IsNodeName(name)
    ensures PyStr.Split("/" + name, '/') == [""] + [name]
    ensures PyStr.Split("/", '/') == [""] + [""]
  {
    PyStr.SplitNoSep(name, '/');
    assert "/" + name == [] + ['/'] + name;
    PyStr.SplitConcat([], name, '/');
    assert "/" == [] + ['/'] + [];
    PyStr.SplitConcat([], [], '/');
  }

  lemma SplitBranchChild(path: string, name: string)
    requires Rooted(path) && path != "/" && IsNodeName(name)
    ensures PyStr.Split(path + "/" + name, '/') == PyStr.Split(path, '/') + [name]
    ensures var sp := PyStr.Split(path, '/'); |sp| >= 2 && sp[0] == "" && sp[|sp| - 1] != ""
  {
    PyStr.SplitNoSep(name, '/');
    assert path + "/" + name == path + ['/'] + name;
    PyStr.SplitConcat(path, name, '/');
    PyStr.SplitLastEmpty(path, '/');
  }

  /** Appending a node name to a node path gives a node path. */
  lemma JoinRooted(path: string, name: string)
    requires Rooted(path) && IsNodeName(name)
    ensures Rooted(JoinPath(path, name))
  {
    var p := JoinPath(path, name);
    if path == "/" {
      assert p == "/" + name;
      assert forall k :: 0 < k < |p| ==> p[k] == name[k - 1];
    } else {
      assert p == path + "/" + name;
      assert forall k :: |path| < k < |p| ==> p[k] == name[k - |path| - 1];
      assert forall k :: 0 <= k < |path| ==> p[k] == path[k];
    }
  }

  /** Appending a node name to a rooted path appends exactly that name to its split. */
  lemma SplitChild(path: string, name: string)
    requires Rooted(path) && IsNodeName(name)
    ensures Rooted(JoinPath(path, name))
    ensures Split(JoinPath(path, name)) == Split(path) + [name]
  {
    JoinRooted(path, name);
    if path == "/" {
      assert JoinPath(path, name) == "/" + name;
      SplitRootChild(name);
    } else {
      assert JoinPath(path, name) == path + "/" + name;
      SplitBranchChild(path, name);
      NamesSnoc(PyStr.Split(path, '/'), name);
    }
  }

  /** `DTPath.check_path_name()`: `Err(path)` is the `ValueError`. */
  function CheckPathName(path: string): (r: Result<(), string>)
    ensures r.Ok? <==> path != "" && path[0] == '/' && '.' !in path
    ensures r.Err? ==> r.error == path
  {
    if path == "" || path[0] != '/' then Err(path)
    else if '.' in path then Err(path)
    else Ok(())
  }

  /** A path name that passes the check splits into "/" and names that are never "." or "..". */
  lemma CheckedPathNames(path: string)
    requires CheckPathName(path).Ok?
    ensures var r := Split(path); r[0] == "/" && forall k :: 1 <= k < |r| ==> r[k] != "." && r[k] != ".."
  {
    var r := Split(path);
    var splits := PyStr.Split(path, '/');
    PyStr.SplitAbsent(path, '/', '.');
    forall k | 1 <= k < |r|
      ensures r[k] != "." && r[k] != ".."
    {
      assert r[k] == splits[k];
      assert '.' !in r[k];
      assert "."[0] == '.' && ".."[0] == '.';
    }
  }

  /** One step of `posixpath.normpath` over a component. */
  function NormStep(acc: seq<string>, comp: string, rooted: bool): seq<string> {
    if comp == "" || comp == "." then acc
    else if comp != ".." || (!rooted && acc == []) || (acc != [] && acc[|acc| - 1] == "..") then acc + [comp]
    else if acc != [] then acc[..|acc| - 1]
    else acc
  }

  /** `posixpath.normpath` over all components, left to right. */
  function NormFold(acc: seq<string>, comps: seq<string>, rooted: bool): seq<string>
    decreases |comps|
  {
    if comps == [] then acc else NormFold(NormStep(acc, comps[0], rooted), comps[1..], rooted)
  }

  /** The leading slashes `posixpath.normpath` keeps: two only for exactly "//". */
  function InitialSlashes(path: string): (n: nat)
    ensures n <= 2
    ensures n > 0 <==> path != "" && path[0] == '/'
  {
    if !("/" <= path) then 0
    else if "//" <= path && !("///" <= path) then 2
    else 1
  }

  function Slashes(n: nat): (r: string)
    ensures |r| == n && forall k :: 0 <= k < n ==> r[k] == '/'
  {
    seq(n, _ => '/')
  }

  /** `DTPath.normpath()` (`posixpath.normpath`). */
  function Normpath(path: string): (r: string)
    ensures r != ""
    ensures path != "" && path[0] == '/' ==> r[0] == '/'
  {
    if path == "" then "."
    else
      var n := InitialSlashes(path);
      var joined := Slashes(n) + PyStr.Join(NormFold([], PyStr.Split(path, '/'), n > 0), '/');
      if joined == "" then "." else joined
  }

  lemma NormFoldCons(acc: seq<string>, c: string, rest: seq<string>, rooted: bool)
    ensures NormFold(acc, [c] + rest, rooted) == NormFold(NormStep(acc, c, rooted), rest, rooted)
  {
    assert ([c] + rest)[0] == c && ([c] + rest)[1..] == rest;
  }

  predicate AllNormal(cs: seq<string>) {
    forall k :: 0 <= k < |cs| ==> IsNormalName(cs[k])
  }

  /** Under a root, ".." never survives: normalised components are plain names. */
  lemma {:induction false} NormFoldRooted(acc: seq<string>, comps: seq<string>)
    requires AllNormal(acc)
    requires forall k :: 0 <= k < |comps| ==> '/' !in comps[k]
    ensures AllNormal(NormFold(acc, comps, true))
    decreases |comps|
  {
    if comps != [] {
      var c := comps[0];
      var next := NormStep(acc, c, true);
      assert AllNormal(next) by {
        if c == "" || c == "." {
        } else if c != ".." {
          assert IsNormalName(c);
        } else if acc != [] {
          assert acc[|acc| - 1] != "..";
        }
      }
      NormFoldRooted(next, comps[1..]);
    }
  }

  /** Names that are already normal pass through the fold unchanged. */
  lemma {:induction false} NormFoldNames(acc: seq<string>, comps: seq<string>, rooted: bool)
    requires AllNormal(comps)
    ensures NormFold(acc, comps, rooted) == acc + comps
    decreases |comps|
  {
    if comps != [] {
      assert NormStep(acc, comps[0], rooted) == acc + [comps[0]];
      NormFoldNames(acc + [comps[0]], comps[1..], rooted);
      assert acc + [comps[0]] + comps[1..] == acc + comps;
    } else {
      assert acc + comps == acc;
    }
  }

  /** A joined list of normal names does not start with '/'. */
  lemma JoinNamesHead(cs: seq<string>)
    requires |cs| >= 1 && AllNormal(cs)
    ensures var j := PyStr.Join(cs, '/'); j != "" && j[0] != '/'
  {
    if |cs| > 1 {
      assert PyStr.Join(cs, '/') == cs[0] + ['/'] + PyStr.Join(cs[1..], '/');
    }
  }

  /** The parts of a normal form: one empty part per leading slash, then the names. */
  lemma SplitNormalForm(n: nat, cs: seq<string>)
    requires 1 <= n <= 2 && AllNormal(cs)
    ensures PyStr.Split(Slashes(n) + PyStr.Join(cs, '/'), '/')
      == (if n == 1 then [""] else ["", ""]) + (if cs == [] then [""] else cs)
  {
    var j := PyStr.Join(cs, '/');
    if cs == [] {
      PyStr.SplitNoSep(j, '/');
    } else {
      PyStr.SplitJoin(cs, '/');
    }
    assert Slashes(1) + j == [] + ['/'] + j;
    PyStr.SplitConcat([], j, '/');
    if n == 2 {
      assert Slashes(2) + j == [] + ['/'] + (Slashes(1) + j);
      PyStr.SplitConcat([], Slashes(1) + j, '/');
    }
  }

  /** A normal form keeps its own count of leading slashes. */
  lemma InitialSlashesNormalForm(n: nat, cs: seq<string>)
    requires 1 <= n <= 2 && AllNormal(cs)
    ensures InitialSlashes(Slashes(n) + PyStr.Join(cs, '/')) == n
  {
    var r := Slashes(n) + PyStr.Join(cs, '/');
    if cs != [] {
      JoinNamesHead(cs);
      assert r[n] == PyStr.Join(cs, '/')[0];
    } else {
      assert r == Slashes(n);
    }
  }

  /** Leading empty parts are skipped by the fold. */
  lemma NormFoldSkipEmpty(lead: seq<string>, cs: seq<string>)
    requires forall k :: 0 <= k < |lead| ==> lead[k] == ""
    ensures NormFold([], lead + cs, true) == NormFold([], cs, true)
    decreases |lead|
  {
    if lead != [] {
      assert lead + cs == [""] + (lead[1..] + cs);
      NormFoldCons([], "", lead[1..] + cs, true);
      NormFoldSkipEmpty(lead[1..], cs);
    } else {
      assert lead + cs == cs;
    }
  }

  lemma NormFoldNormalForm(n: nat, cs: seq<string>)
    requires 1 <= n <= 2 && AllNormal(cs)
    ensures NormFold([], PyStr.Split(Slashes(n) + PyStr.Join(cs, '/'), '/'), true) == cs
  {
    SplitNormalForm(n, cs);
    var lead: seq<string> := if n == 1 then [""] else ["", ""];
    if cs == [] {
      assert lead + [""] == (lead + [""]) + [];
      NormFoldSkipEmpty(lead + [""], []);
    } else {
      NormFoldSkipEmpty(lead, cs);
      NormFoldNames([], cs, true);
    }
  }

  /** A normal form is a fixed point of `normpath`. */
  lemma NormalFormFixed(n: nat, cs: seq<string>)
    requires 1 <= n <= 2 && AllNormal(cs)
    ensures Normpath(Slashes(n) + PyStr.Join(cs, '/')) == Slashes(n) + PyStr.Join(cs, '/')
  {
    var r := Slashes(n) + PyStr.Join(cs, '/');
    InitialSlashesNormalForm(n, cs);
    NormFoldNormalForm(n, cs);
    assert r != "";
  }

  /** Normalising an absolute path twice changes nothing more. */
  lemma NormpathIdempotent(path: string)
    requires path != "" && path[0] == '/'
    ensures Normpath(Normpath(path)) == Normpath(path)
  {
    var n := InitialSlashes(path);
    var cs := NormFold([], PyStr.Split(path, '/'), true);
    NormFoldRooted([], PyStr.Split(path, '/'));
    NormalFormFixed(n, cs);
  }

  lemma SplitUnderRoot(rest: string)
    ensures PyStr.Split("/" + rest, '/') == [""] + PyStr.Split(rest, '/')
    ensures PyStr.Split("/../" + rest, '/') == ["", ".."] + PyStr.Split(rest, '/')
  {
    assert "/" + rest == [] + ['/'] + rest;
    PyStr.SplitConcat([], rest, '/');
    assert "/../" + rest == [] + ['/'] + (".." + ['/'] + rest);
    PyStr.SplitConcat([], ".." + ['/'] + rest, '/');
    PyStr.SplitConcat("..", rest, '/');
    PyStr.SplitNoSep("..", '/');
  }

  /** The root is its own parent: a ".." right under the root is dropped. */
  lemma RootIsOwnParent(rest: string)
    requires rest == "" || rest[0] != '/'
    ensures Normpath("/../" + rest) == Normpath("/" + rest)
  {
    SlashesUnderRoot(rest);
    FoldUnderRoot(rest);
  }

  /** Both paths keep one leading slash. */
  lemma SlashesUnderRoot(rest: string)
    requires rest == "" || rest[0] != '/'
    ensures InitialSlashes("/../" + rest) == 1 && InitialSlashes("/" + rest) == 1
  {
    assert ("/../" + rest)[1] == '.';
    if rest != "" {
      assert ("/" + rest)[1] == rest[0];
    }
  }

  /** Under the root, a leading ".." component is dropped by the fold. */
  lemma FoldUnderRoot(rest: string)
    ensures NormFold([], PyStr.Split("/../" + rest, '/'), true) == NormFold([], PyStr.Split("/" + rest, '/'), true)
  {
    var sr := PyStr.Split(rest, '/');
    SplitUnderRoot(rest);
    assert ["", ".."] + sr == [""] + ([".."] + sr);
    NormFoldCons([], "", [".."] + sr, true);
    NormFoldCons([], "..", sr, true);
    NormFoldCons([], "", sr, true);
  }

  /**
   * `DTPath.abspath()`: the check on the working branch fails with
   * `Err(pwd)`, otherwise `normpath(join(pwd, path))`.
   */
  function Abspath(path: string, pwd: string): (r: Result<string, string>)
    ensures r.Err? <==> CheckPathName(pwd).Err?
  {
    if CheckPathName(pwd).Err? then Err(pwd)
    else Ok(Normpath(JoinPath(pwd, path)))
  }

  /** `abspath` always gives an absolute path already in normal form. */
  lemma AbspathNormal(path: string, pwd: string)
    requires Abspath(path, pwd).Ok?
    ensures var r := Abspath(path, pwd).value; r[0] == '/' && Normpath(r) == r
  {
    NormpathIdempotent(JoinPath(pwd, path));
  }

  /** `str.rstrip('/')` */
  function RStripSlashes(s: string): (r: string)
    ensures |r| <= |s| && r == s[..|r|]
    ensures r == [] || r[|r| - 1] != '/'
    ensures forall k :: |r| <= k < |s| ==> s[k] == '/'
  {
    if s != [] && s[|s| - 1] == '/' then RStripSlashes(s[..|s| - 1]) else s
  }

  predicate AllSlashes(s: string) {
    forall k :: 0 <= k < |s| ==> s[k] == '/'
  }

  /** `posixpath.split`: head and tail around the last '/'. */
  function PosixSplit(path: string): (r: (string, string))
    ensures '/' !in r.1 && PyStr.EndsWith(path, r.1)
  {
    var i := PyStr.RFind(path, '/') + 1;
    var head := path[..i];
    (if head != "" && !AllSlashes(head) then RStripSlashes(head) else head, path[i..])
  }

  /** `DTPath.dirname()`: the head of the path, or "." when it is empty. */
  function Dirname(path: string): (r: string)
    ensures r != ""
  {
    var head := PosixSplit(path).0;
    if head == "" then "." else head
  }

  /** `DTPath.basename()`: the tail of the path, empty after a trailing '/'. */
  function Basename(path: string): (r: string)
    ensures '/' !in r && PyStr.EndsWith(path, r)
  {
    PosixSplit(path).1
  }

  /** A path without '/' is a name under the current branch ".". */
  lemma DirnameNoSlash(path: string)
    requires '/' !in path
    ensures Dirname(path) == "." && Basename(path) == path
  {
  }

  /** `dirname` and `basename` undo appending a node name to a rooted path. */
  lemma DirnameBasenameChild(path: string, name: string)
    requires Rooted(path) && IsNodeName(name)
    ensures Dirname(JoinPath(path, name)) == path
    ensures Basename(JoinPath(path, name)) == name
  {
    var p := JoinPath(path, name);
    if path == "/" {
      assert p == "/" + name;
      assert forall k :: 0 < k < |p| ==> p[k] == name[k - 1];
      assert PyStr.RFind(p, '/') == 0;
    } else {
      assert p == path + "/" + name;
      assert forall k :: |path| < k < |p| ==> p[k] == name[k - |path| - 1];
      assert p[|path|] == '/';
      assert PyStr.RFind(p, '/') == |path|;
      var head := p[..|path| + 1];
      assert head == path + "/";
      assert !AllSlashes(head) by { assert head[|path| - 1] != '/'; }
      assert head[..|head| - 1] == path;
      assert RStripSlashes(head) == path;
    }
  }

  /** The root is its own parent also for `dirname`, and its base name is empty. */
  lemma DirnameRoot()
    ensures Dirname("/") == "/" && Basename("/") == ""
  {
    assert PyStr.RFind("/", '/') == 0;
    assert AllSlashes("/");
  }
}
