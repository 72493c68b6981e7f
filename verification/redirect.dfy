/**
 * Command output redirection (`DTShRedirect`): the `>`/`>>` expression is
 * split into a target path and a mode, then the target is checked against
 * the file-system preferences. The file system is a parameter: the working
 * directory, the home directory and the set of existing regular files.
 */
module Redirect {
  import opened Wrappers
  import PyStr
  import DTPath

  /** The cases of `DTShRedirect.Error`. */
  datatype RedirError =
    | InvalidRedirection(redir2: string)
    | NoTarget
    | SpacesNotAllowed(path: string)
    | FileExists(path: string)

  function Message(e: RedirError): string {
    match e
    case InvalidRedirection(r) => "invalid redirection: '" + r + "'"
    case NoTarget => "don't know where to redirect the output to ?"
    case SpacesNotAllowed(p) => "spaces not allowed in redirection: '" + p + "'"
    case FileExists(p) => "file exists: '" + p + "'"
  }

  /** `DTShRedirect.parse_redir2()`: the stripped target path, and whether to append. */
  function ParseRedir2(redir2: string): (r: Result<(string, bool), RedirError>)
    ensures r.Err? && r.error == InvalidRedirection(redir2) <==> !(">" <= redir2)
    ensures r.Err? ==> r.error == InvalidRedirection(redir2) || r.error == NoTarget
    ensures r.Ok? ==> r.value.0 != "" && r.value.1 == (">>" <= redir2)
    ensures r.Ok? && r.value.1 ==> r.value.0 == PyStr.Strip(redir2[2..])
    ensures r.Ok? && !r.value.1 ==> r.value.0 == PyStr.Strip(redir2[1..])
  {
    if !(">" <= redir2) then Err(InvalidRedirection(redir2))
    else
      var append := ">>" <= redir2;
      var path := if append then PyStr.Strip(redir2[2..]) else PyStr.Strip(redir2[1..]);
      if path == "" then Err(NoTarget) else Ok((path, append))
  }

  /** Writing a target after `>>`, or after `>` when it does not itself start with `>`, parses back to it. */
  lemma ParseRedir2RoundTrip(p: string, append: bool)
    requires p != [] && !PyStr.IsSpace(p[0]) && !PyStr.IsSpace(p[|p| - 1])
    requires !append ==> p[0] != '>'
    ensures ParseRedir2((if append then ">>" else ">") + p) == Ok((p, append))
  {
    PyStr.StripTrimmed(p);
    var r := (if append then ">>" else ">") + p;
    if append {
      assert r[2..] == p;
    } else {
      assert r[1..] == p;
      assert r[1] == p[0];
    }
  }

  /** The file-system preferences the redirection honours. */
  datatype FsPrefs = FsPrefs(noSpaces: bool, noOverwrite: bool)

  /** The file system as the redirection sees it. */
  datatype FileSystem = FileSystem(cwd: string, home: string, files: set<string>)

  /** A redirection as set up: the real path of the target and the mode. */
  datatype Redirection = Redirection(path: string, append: bool)

  /** `os.path.abspath()` after expanding a leading `~` to the home directory. */
  function RealPath(path: string, fs: FileSystem): string {
    var expanded := if "~" <= path then fs.home + path[1..] else path;
    DTPath.Normpath(DTPath.JoinPath(fs.cwd, expanded))
  }

  /** `DTShRedirect.__init__()`: the checks on the target and the final mode. */
  function NewRedirect(redir2: string, prefs: FsPrefs, fs: FileSystem): (r: Result<Redirection, RedirError>)
    ensures ParseRedir2(redir2).Err? ==> r == Err(ParseRedir2(redir2).error)
    ensures r.Ok? ==> ParseRedir2(redir2).Ok? && r.value.path == RealPath(ParseRedir2(redir2).value.0, fs)
    ensures r.Ok? && r.value.append ==> r.value.path in fs.files
    ensures r.Ok? && r.value.path in fs.files ==> !prefs.noOverwrite && r.value.append == ParseRedir2(redir2).value.1
    ensures r.Ok? && prefs.noSpaces ==> !(' ' in ParseRedir2(redir2).value.0)
  {
    match ParseRedir2(redir2)
    case Err(e) => Err(e)
    case Ok(parsed) =>
      var (path, append) := parsed;
      if prefs.noSpaces && ' ' in path then Err(SpacesNotAllowed(path))
      else
        var target := RealPath(path, fs);
        if target in fs.files then
          if prefs.noOverwrite then Err(FileExists(target)) else Ok(Redirection(target, append))
        else Ok(Redirection(target, false))
  }

  /** `DTShRedirect`: the real path of the target and whether to append to it. */
  class DTShRedirect {
    const path: string
    const append: bool

    constructor(path: string, append: bool)
      ensures this.path == path && this.append == append
    {
      this.path := path;
      this.append := append;
    }
  }

  /**
   * `DTShRedirect(redir2)`: parse, check the spaces policy, expand and
   * absolutize the path, then check the overwrite policy and drop the
   * append mode for a missing file; `Err` is the `DTShRedirect.Error` raised.
   */
  method Open(redir2: string, prefs: FsPrefs, fs: FileSystem) returns (r: Result<DTShRedirect, RedirError>)
    ensures r.Err? <==> NewRedirect(redir2, prefs, fs).Err?
    ensures r.Err? ==> r.error == NewRedirect(redir2, prefs, fs).error
    ensures r.Ok? ==> fresh(r.value)
    ensures r.Ok? ==> NewRedirect(redir2, prefs, fs) == Ok(Redirection(r.value.path, r.value.append))
  {
    var parsed := ParseRedir2(redir2);
    if parsed.Err? {
      return Err(parsed.error);
    }
    var path, append := parsed.value.0, parsed.value.1;
    if prefs.noSpaces && ' ' in path {
      return Err(SpacesNotAllowed(path));
    }
    if "~" <= path {
      path := fs.home + path[1..];
    }
    path := DTPath.Normpath(DTPath.JoinPath(fs.cwd, path));
    assert path == RealPath(parsed.value.0, fs);
    if path in fs.files {
      if prefs.noOverwrite {
        return Err(FileExists(path));
      }
    } else {
      append := false;
    }
    var redirect := new DTShRedirect(path, append);
    r := Ok(redirect);
  }

  /** An existing target is refused under the no-overwrite preference, whatever the mode. */
  lemma NoOverwrite(redir2: string, prefs: FsPrefs, fs: FileSystem)
    requires ParseRedir2(redir2).Ok? && prefs.noOverwrite
    requires !(prefs.noSpaces && ' ' in ParseRedir2(redir2).value.0)
    requires RealPath(ParseRedir2(redir2).value.0, fs) in fs.files
    ensures NewRedirect(redir2, prefs, fs) == Err(FileExists(RealPath(ParseRedir2(redir2).value.0, fs)))
  {
  }

  /** A missing target is always written from scratch, and an existing one honours `>>`. */
  lemma AppendOnlyExisting(redir2: string, prefs: FsPrefs, fs: FileSystem)
    requires NewRedirect(redir2, prefs, fs).Ok?
    ensures var r := NewRedirect(redir2, prefs, fs).value;
      r.append <==> r.path in fs.files && ">>" <= redir2
  {
  }
}
