/**
 * The shell's own string path resolver (`Dtsh.realpath`, `Dtsh.nodename`,
 * `Dtsh.dirname`, `Dtsh.path_concat`): paths are resolved against the
 * current working node's path `pwd`, with '.' and '..' as wildcards and the
 * devicetree root as its own parent; no component has to name an actual
 * node. `ValueError`s are the `Err` cases.
 */
module DtshPath {
  import opened Wrappers
  import PyStr
  import DTPath

  /** The `ValueError`s of the resolver. */
  datatype PathError = PathUnspecified | PrefixUnspecified | NotRelative

  /** A relative path component that names something: non-empty, without '/'. */
  predicate IsName(name: string) {
    name != "" && '/' !in name
  }

  /** The last '/' of a string is found where it is. */
  lemma RFindAt(s: string, i: nat)
    requires i < |s| && s[i] == '/' && forall k :: i < k < |s| ==> s[k] != '/'
    ensures PyStr.RFind(s, '/') == i
  {
  }

  /** A string without '/' has none to find. */
  lemma RFindNone(s: string)
    requires '/' !in s
    ensures PyStr.RFind(s, '/') == -1
  {
  }

  /** `Dtsh.nodename()`: the last component, ignoring one trailing '/'; "/" for the root. */
  function Nodename(path: string): (r: Result<string, PathError>)
    ensures r.Err? <==> path == ""
    ensures r.Ok? && path != "/" ==> '/' !in r.value
    ensures path == "/" ==> r == Ok("/")
  {
    if path == "" then Err(PathUnspecified)
    else if path == "/" then Ok("/")
    else if PyStr.RFind(path, '/') < 0 then Ok(path)
    else
      var p := if path[|path| - 1] == '/' then path[..|path| - 1] else path;
      Ok(p[PyStr.RFind(p, '/') + 1..])
  }

  /** `Dtsh.dirname()` as written: after a trailing '/', the second search may find the first character or nothing. */
  function DirnameAsWritten(path: string): (r: Result<string, PathError>)
    ensures r.Err? <==> path == ""
  {
    if path == "" then Err(PathUnspecified)
    else
      var x := PyStr.RFind(path, '/');
      if x == 0 then Ok("/")
      else if x > 0 then
        var y := if path[|path| - 1] == '/' then PyStr.RFind(path[..|path| - 1], '/') else x;
        // `path[0:y]`, where y == -1 slices off the last character.
        Ok(if y >= 0 then path[..y] else path[..|path| - 1])
      else Ok(".")
  }

  /** The directory part of a path without its trailing '/': "/" under the root, "." without any '/'. */
  function DirnameCore(p: string): (r: string)
    ensures r != ""
  {
    var x := PyStr.RFind(p, '/');
    if x == 0 then "/" else if x > 0 then p[..x] else "."
  }

  /** `Dtsh.dirname()`: the path without its last component and one trailing '/'. */
  function Dirname(path: string): (r: Result<string, PathError>)
    ensures r.Err? <==> path == ""
    ensures r.Ok? ==> r.value != ""
  {
    if path == "" then Err(PathUnspecified)
    else if |path| > 1 && path[|path| - 1] == '/' then Ok(DirnameCore(path[..|path| - 1]))
    else Ok(DirnameCore(path))
  }

  /** Both readings agree on every path that does not end in '/' (and on the root). */
  lemma DirnameAgrees(path: string)
    requires !(|path| > 1 && path[|path| - 1] == '/')
    ensures DirnameAsWritten(path) == Dirname(path)
  {
  }

  /** As written, the directory of "/a/" is "" where it should be "/". */
  lemma DirnameAsWrittenRootChild()
    ensures DirnameAsWritten("/a/") == Ok("")
    ensures Dirname("/a/") == Ok("/")
  {
    var p := "/a/";
    RFindAt(p, 2);
    RFindAt(p[..2], 0);
    assert p[..2][..0] == "";
  }

  /** As written, the directory of "a/" is "a" where it should be ".". */
  lemma DirnameAsWrittenRelative()
    ensures DirnameAsWritten("a/") == Ok("a")
    ensures Dirname("a/") == Ok(".")
  {
    var p := "a/";
    RFindAt(p, 1);
    assert p[..1] == "a";
    RFindNone(p[..1]);
  }

  /** One trailing '/' does not change the directory. */
  lemma DirnameTrailingSlash(p: string)
    requires p != "" && p[|p| - 1] != '/'
    ensures Dirname(p + "/") == Dirname(p)
  {
    assert (p + "/")[..|p|] == p;
  }

  /** `Dtsh.path_concat()`: the prefix, one '/', and the relative path without one trailing '/'. */
  function PathConcat(prefix: string, path: string): (r: Result<string, PathError>)
    ensures r.Err? <==> prefix == "" || path == "" || path[0] == '/'
    ensures prefix == "" ==> r == Err(PrefixUnspecified)
    ensures prefix != "" && path == "" ==> r == Err(PathUnspecified)
    ensures r.Ok? ==> prefix <= r.value && |r.value| > |prefix|
    ensures r.Ok? && path[|path| - 1] != '/' ==> PyStr.EndsWith(r.value, path)
  {
    if prefix == "" then Err(PrefixUnspecified)
    else if path == "" then Err(PathUnspecified)
    else if path[0] == '/' then Err(NotRelative)
    else
      var pre := if prefix[|prefix| - 1] != '/' then prefix + "/" else prefix;
      var rel := if path[|path| - 1] == '/' then path[..|path| - 1] else path;
      assert |rel| >= 1 by {
        if |path| == 1 { assert path[0] != '/'; }
      }
      Ok(pre + rel)
  }

  /** A name joined under a directory (the root, or a path without trailing '/'). */
  predicate IsDirectory(d: string) {
    d == "/" || (d != "" && d[|d| - 1] != '/')
  }

  /** Joining a name under a directory puts exactly one '/' between them. */
  lemma PathConcatName(d: string, name: string)
    requires IsDirectory(d) && IsName(name)
    ensures PathConcat(d, name) == Ok(if d == "/" then "/" + name else d + "/" + name)
  {
  }

  /** `dirname` and `nodename` take a name joined under a directory apart again. */
  lemma PathConcatInverse(d: string, name: string)
    requires IsDirectory(d) && IsName(name)
    ensures PathConcat(d, name).Ok?
    ensures Dirname(PathConcat(d, name).value) == Ok(d)
    ensures Nodename(PathConcat(d, name).value) == Ok(name)
  {
    PathConcatName(d, name);
    var p := PathConcat(d, name).value;
    var i := if d == "/" then 0 else |d|;
    assert p[i] == '/';
    forall k | i < k < |p| ensures p[k] != '/' {
      assert p[k] == name[k - i - 1];
    }
    RFindAt(p, i);
    assert p[i + 1..] == name;
    if d != "/" {
      assert p[..i] == d;
    }
  }

  /** A trailing '/' on the relative path is dropped. */
  lemma PathConcatTrailing(prefix: string, path: string)
    requires prefix != "" && path != "" && path[0] != '/' && path[|path| - 1] != '/'
    ensures PathConcat(prefix, path + "/") == PathConcat(prefix, path)
  {
    assert (path + "/")[..|path|] == path;
  }

  /**
   * `Dtsh.realpath()`: an absolute path loses one trailing '/'; a leading
   * '.' or '..' stands for `pwd` or its directory; anything else is joined
   * under `pwd`.
   */
  function Realpath(path: string, pwd: string): (r: Result<string, PathError>)
    ensures path == "" ==> r == Err(PathUnspecified)
    ensures path != "" && path[0] == '/' ==> r.Ok? && path <= r.value + "/"
    ensures path != "" && path[0] != '/' && path[0] != '.' ==> r == PathConcat(pwd, path)
    ensures r.Ok? && pwd != "" ==> r.value != ""
  {
    if path == "" then Err(PathUnspecified)
    else if path[0] == '/' then
      Ok(if path[|path| - 1] == '/' && |path| > 1 then path[..|path| - 1] else path)
    else if path[0] == '.' then
      var parent := |path| >= 2 && path[1] == '.';
      var trailing := if parent then path[2..] else path[1..];
      var t := if trailing != "" && trailing[0] == '/' then trailing[1..] else trailing;
      match (if parent then Dirname(pwd) else Ok(pwd))
      case Err(e) => Err(e)
      case Ok(dirpath) => if t != "" then PathConcat(dirpath, t) else Ok(dirpath)
    else PathConcat(pwd, path)
  }

  /** A node path resolves to itself, with or without one trailing '/'. */
  lemma RealpathAbsolute(p: string, pwd: string)
    requires DTPath.Rooted(p)
    ensures Realpath(p, pwd) == Ok(p)
    ensures p != "/" ==> Realpath(p + "/", pwd) == Ok(p)
  {
    if p != "/" {
      assert (p + "/")[..|p|] == p;
    }
  }

  /** ".." is the directory of `pwd`, and the root is its own parent. */
  lemma RealpathParent(pwd: string)
    requires pwd != ""
    ensures Realpath("..", pwd) == Dirname(pwd)
    ensures Realpath("../", pwd) == Dirname(pwd)
    ensures Realpath("..", "/") == Ok("/")
  {
    assert ".."[2..] == "";
    assert "../"[2..] == "/";
    RFindAt("/", 0);
  }

  /** "../name" is the name joined under the directory of `pwd`. */
  lemma RealpathParentName(pwd: string, name: string)
    requires pwd != "" && IsName(name)
    ensures Realpath("../" + name, pwd) == PathConcat(Dirname(pwd).value, name)
  {
    var path := "../" + name;
    assert path[2..] == "/" + name;
    assert path[2..][1..] == name;
  }

  /** "." and "./" are `pwd`, and "./name" is the name joined under `pwd`. */
  lemma RealpathCurrent(pwd: string, name: string)
    requires IsName(name)
    ensures Realpath(".", pwd) == Ok(pwd)
    ensures Realpath("./", pwd) == Ok(pwd)
    ensures Realpath("./" + name, pwd) == PathConcat(pwd, name)
  {
    assert "."[1..] == "";
    assert "./"[1..] == "/";
    var path := "./" + name;
    assert path[1] == '/';
    assert path[1..][1..] == name;
  }

  /** A name under a node path resolves below that node: `dirname` gives the node back. */
  lemma RealpathRelative(pwd: string, name: string)
    requires DTPath.Rooted(pwd) && IsName(name) && name[0] != '.'
    ensures Realpath(name, pwd).Ok?
    ensures Dirname(Realpath(name, pwd).value) == Ok(pwd)
    ensures Nodename(Realpath(name, pwd).value) == Ok(name)
  {
    PathConcatInverse(pwd, name);
  }

  /** A trailing wildcard '*' survives resolution. */
  lemma RealpathWildcard(path: string, pwd: string)
    requires path != "" && path[|path| - 1] == '*'
    requires Realpath(path, pwd).Ok?
    ensures var r := Realpath(path, pwd).value; r != "" && r[|r| - 1] == '*'
  {
    if path[0] == '.' {
      var parent := |path| >= 2 && path[1] == '.';
      var trailing := if parent then path[2..] else path[1..];
      var t := if trailing != "" && trailing[0] == '/' then trailing[1..] else trailing;
      assert t != "" && t[|t| - 1] == '*';
    }
  }

  /** What `cd` fails with: a path that does not resolve, or one naming no node. */
  datatype CdError = BadPath(e: PathError) | NoSuchNode(path: string)

  /** The shell's current working node, tracked by its path. */
  class Dtsh {
    /** The paths of the devicetree's nodes, as the devicetree library would look them up. */
    const nodes: set<string>
    var pwd: string

    predicate Valid()
      reads this
    {
      pwd in nodes
    }

    /** A new shell starts at the root. */
    constructor(nodes: set<string>)
      requires "/" in nodes
      ensures this.nodes == nodes && pwd == "/" && Valid()
    {
      this.nodes := nodes;
      pwd := "/";
    }

    /** `cd()`: resolve the path against `pwd`, then move there if it names a node. */
    method Cd(path: string) returns (r: Result<(), CdError>)
      requires Valid()
      modifies this
      ensures Valid()
      ensures match Realpath(path, old(pwd))
        case Err(e) => r == Err(BadPath(e)) && pwd == old(pwd)
        case Ok(p) =>
          if p == "" then r == Err(BadPath(PathUnspecified)) && pwd == old(pwd)
          else if p in nodes then r == Ok(()) && pwd == p
          else r == Err(NoSuchNode(p)) && pwd == old(pwd)
    {
      var resolved := Realpath(path, pwd);
      if resolved.Err? {
        return Err(BadPath(resolved.error));
      }
      var p := resolved.value;
      if p == "" {
        return Err(BadPath(PathUnspecified));
      }
      if p !in nodes {
        return Err(NoSuchNode(p));
      }
      pwd := p;
      return Ok(());
    }
  }
}
