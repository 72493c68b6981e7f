/**
 * The CMake cache reader (`CMakeCache`, `CMakeCacheEntry`): each line of a
 * `CMakeCache.txt` is a comment, a blank line, or an entry `NAME:TYPE=VALUE`
 * whose value is decoded by its type; the cache maps each name to the value
 * of its last entry. Reading the file is left to the caller: the model
 * starts from its lines, each with its line break.
 */
module CMakeCache {
  import opened Wrappers
  import PyStr

  /** The cache entry types of the entry grammar, in the order the grammar tries them. */
  datatype CacheType = FilePath | PathType | StringType | BoolType | Internal | Static | Uninitialized

  function TypeName(t: CacheType): string {
    match t
    case FilePath => "FILEPATH"
    case PathType => "PATH"
    case StringType => "STRING"
    case BoolType => "BOOL"
    case Internal => "INTERNAL"
    case Static => "STATIC"
    case Uninitialized => "UNINITIALIZED"
  }

  /** The types whose values are CMake lists when they hold a ';'. */
  predicate IsListType(t: CacheType) {
    t == StringType || t == Internal || t == Static || t == Uninitialized
  }

  /** `CMakeCacheEntry.ValueType`: a string, a list of strings, or a boolean. */
  datatype CacheValue = Str(s: string) | StrList(items: seq<string>) | BoolValue(b: bool)

  datatype Entry = Entry(name: string, value: CacheValue)

  /** The `ValueError`s of the reader: a BOOL entry that is not a boolean, with its line. */
  datatype CacheError = NotABool(value: string, lineNo: nat, line: string)

  /** The alternatives of the type group, in order. */
  const AllTypes := [FilePath, PathType, StringType, BoolType, Internal, Static, Uninitialized]

  /** The first of `ts` whose name and '=' start `s`. */
  function FirstType(s: string, ts: seq<CacheType>): (r: Option<CacheType>)
    ensures r.Some? ==> r.value in ts && TypeName(r.value) + "=" <= s
  {
    if ts == [] then None
    else if TypeName(ts[0]) + "=" <= s then Some(ts[0])
    else FirstType(s, ts[1..])
  }

  /** The type `s` starts with, followed by '='. */
  function TypeAt(s: string): (r: Option<CacheType>)
    ensures r.Some? ==> TypeName(r.value) + "=" <= s
  {
    FirstType(s, AllTypes)
  }

  /** Two types whose names agree at indexes 0 and 2 are the same type. */
  lemma NameKey(t: CacheType, u: CacheType)
    requires TypeName(t)[0] == TypeName(u)[0] && TypeName(t)[2] == TypeName(u)[2]
    ensures t == u
  {
  }

  /** No type name and '=' start another type's name and '='. */
  lemma NamesPrefixFree(t: CacheType, u: CacheType, rest: string)
    requires t != u
    ensures !(TypeName(u) + "=" <= TypeName(t) + "=" + rest)
  {
    var s := TypeName(t) + "=" + rest;
    var n := TypeName(u) + "=";
    if n <= s {
      assert n[0] == s[0] && n[2] == s[2];
      NameKey(t, u);
    }
  }

  lemma {:induction false} FirstTypeName(t: CacheType, rest: string, ts: seq<CacheType>)
    requires t in ts
    ensures FirstType(TypeName(t) + "=" + rest, ts) == Some(t)
  {
    var s := TypeName(t) + "=" + rest;
    if ts[0] == t {
      assert s[..|TypeName(t)| + 1] == TypeName(t) + "=";
    } else {
      NamesPrefixFree(t, ts[0], rest);
      FirstTypeName(t, rest, ts[1..]);
    }
  }

  /** A type name followed by '=' is read back as that type. */
  lemma TypeAtName(t: CacheType, rest: string)
    ensures TypeAt(TypeName(t) + "=" + rest) == Some(t)
  {
    FirstTypeName(t, rest, AllTypes);
  }

  /**
   * The non-greedy name of the entry grammar: the first ':' at or after `i`,
   * before any line break, that a type and '=' follow.
   */
  function NameEnd(line: string, i: nat): (r: Option<(nat, CacheType)>)
    requires i <= |line|
    ensures r.Some? ==> i <= r.value.0 < |line| && line[r.value.0] == ':'
    ensures r.Some? ==> r.value.0 + |TypeName(r.value.1)| + 2 <= |line|
    ensures r.Some? ==> forall k :: i <= k < r.value.0 ==> line[k] != '\n'
    decreases |line| - i
  {
    if i == |line| || line[i] == '\n' then None
    else if line[i] == ':' && TypeAt(line[i + 1..]).Some? then Some((i, TypeAt(line[i + 1..]).value))
    else NameEnd(line, i + 1)
  }

  /** What `.*` matches: the text up to the first line break. */
  function UpToBreak(s: string): (r: string)
    ensures r <= s && '\n' !in r
    ensures |r| < |s| ==> s[|r|] == '\n'
  {
    if s == [] || s[0] == '\n' then [] else [s[0]] + UpToBreak(s[1..])
  }

  /** The named constants CMake reads as true, and as false. */
  const TrueConstants := ["ON", "YES", "TRUE", "Y"]
  const FalseConstants := ["OFF", "NO", "FALSE", "N", "IGNORE", "NOTFOUND", ""]

  /** `u` is one of `table` from index `k` on. */
  predicate OneOf(u: string, table: seq<string>, k: nat)
    decreases |table| - k
  {
    k < |table| && (u == table[k] || OneOf(u, table, k + 1))
  }

  /** `CMakeCacheEntry._to_bool()`: CMake's boolean constants, case-insensitively; `Err` is the `ValueError`. */
  function ToBool(val: string): (r: Result<bool, string>)
    ensures r.Err? ==> r.error == PyStr.Upper(val)
  {
    UpperToBool(PyStr.Upper(val))
  }

  /** `_to_bool()` once the value is in upper case. */
  function UpperToBool(u: string): (r: Result<bool, string>)
    ensures r.Err? ==> r.error == u
  {
    if OneOf(u, TrueConstants, 0) then Ok(true)
    else if OneOf(u, FalseConstants, 0) then Ok(false)
    else if PyStr.EndsWith(u, "-NOTFOUND") then Ok(false)
    else
      match PyStr.PyInt(u)
      case Some(v) => Ok(v != 0)
      case None => Err(u)
  }

  lemma UpperIdempotent(s: string)
    ensures PyStr.Upper(PyStr.Upper(s)) == PyStr.Upper(s)
  {
  }

  /** The boolean constants are case-insensitive: a value decodes as its upper-case writing does. */
  lemma ToBoolCaseInsensitive(val: string)
    ensures ToBool(val) == ToBool(PyStr.Upper(val))
  {
    UpperIdempotent(val);
  }

  /** `OneOf` is membership. */
  lemma {:induction false} OneOfMember(u: string, table: seq<string>, k: nat)
    requires k <= |table|
    ensures OneOf(u, table, k) <==> u in table[k..]
    decreases |table| - k
  {
    if k < |table| {
      OneOfMember(u, table, k + 1);
      assert table[k..] == [table[k]] + table[k + 1..];
    }
  }

  /** Every named constant, in any case, decodes as CMake says. */
  lemma ToBoolConstants(val: string)
    ensures PyStr.Upper(val) in TrueConstants ==> ToBool(val) == Ok(true)
    ensures PyStr.Upper(val) in FalseConstants ==> ToBool(val) == Ok(false)
  {
    OneOfMember(PyStr.Upper(val), TrueConstants, 0);
    OneOfMember(PyStr.Upper(val), FalseConstants, 0);
  }

  /** A value that ends in `-NOTFOUND`, in any case, is false. */
  lemma ToBoolNotFound(val: string)
    requires PyStr.EndsWith(PyStr.Upper(val), "-NOTFOUND")
    ensures ToBool(val) == Ok(false)
  {
    var u := PyStr.Upper(val);
    OneOfMember(u, TrueConstants, 0);
    if OneOf(u, FalseConstants, 0) {
      OneOfMember(u, FalseConstants, 0);
    }
  }

  /** No string of `table` from index `k` on starts with a digit. */
  predicate NoneStartsWithDigit(table: seq<string>, k: nat)
    decreases |table| - k
  {
    k >= |table| || ((table[k] == [] || !PyStr.IsDigit(table[k][0])) && NoneStartsWithDigit(table, k + 1))
  }

  /** A string that starts with a digit is none of a table of strings that do not. */
  lemma {:induction false} NotOneOfDigit(u: string, table: seq<string>, k: nat)
    requires u != [] && PyStr.IsDigit(u[0])
    requires NoneStartsWithDigit(table, k)
    ensures !OneOf(u, table, k)
    decreases |table| - k
  {
    if k < |table| {
      assert u != table[k];
      NotOneOfDigit(u, table, k + 1);
    }
  }

  /** A numeral is none of the true constants. */
  lemma NumeralNotTrue(d: string)
    requires |d| >= 1 && forall k :: 0 <= k < |d| ==> PyStr.IsDigit(d[k])
    ensures !OneOf(d, TrueConstants, 0)
  {
    NotOneOfDigit(d, TrueConstants, 0);
  }

  /** A numeral is none of the false constants. */
  lemma NumeralNotFalse(d: string)
    requires |d| >= 1 && forall k :: 0 <= k < |d| ==> PyStr.IsDigit(d[k])
    ensures !OneOf(d, FalseConstants, 0)
  {
    NotOneOfDigit(d, FalseConstants, 0);
  }

  /** A numeral does not end in `-NOTFOUND`. */
  lemma NumeralNotFound(d: string)
    requires |d| >= 1 && forall k :: 0 <= k < |d| ==> PyStr.IsDigit(d[k])
    ensures !PyStr.EndsWith(d, "-NOTFOUND")
  {
    if |d| >= 9 {
      assert d[|d| - 9..][0] != "-NOTFOUND"[0];
    }
  }

  /** A non-negative decimal number is true exactly when it is not zero. */
  lemma ToBoolNumber(n: nat)
    ensures ToBool(PyStr.DecDigits(n)) == Ok(n != 0)
  {
    var d := PyStr.DecDigits(n);
    PyStr.DecDigitsNoLetters(n);
    NumeralNotTrue(d);
    NumeralNotFalse(d);
    NumeralNotFound(d);
    PyStr.PyIntDecDigits(n);
    assert UpperToBool(d) == Ok(n != 0);
  }

  /** The value of an entry of type `t` written as `raw`: a boolean, a CMake list, or the string itself. */
  function DecodeValue(t: CacheType, raw: string, lineNo: nat, line: string): (r: Result<CacheValue, CacheError>)
    ensures r.Err? <==> t == BoolType && ToBool(raw).Err?
    ensures t == FilePath || t == PathType ==> r == Ok(Str(raw))
  {
    if t == BoolType then
      match ToBool(raw)
      case Ok(b) => Ok(BoolValue(b))
      case Err(u) => Err(NotABool(u, lineNo, line))
    else if IsListType(t) && ';' in raw then Ok(StrList(PyStr.Split(raw, ';')))
    else Ok(Str(raw))
  }

  /** `CMakeCacheEntry.from_line()`: `Ok(None)` for comments, blank lines and lines off the grammar. */
  function FromLine(line: string, lineNo: nat): (r: Result<Option<Entry>, CacheError>)
    ensures "//" <= line || "#" <= line || PyStr.Strip(line) == "" ==> r == Ok(None)
    ensures r.Ok? && r.value.Some? ==> var name := r.value.value.name;
      |name| < |line| && line[..|name|] == name && line[|name|] == ':' && '\n' !in name
  {
    if "//" <= line || "#" <= line then Ok(None)
    else if PyStr.Strip(line) == "" then Ok(None)
    else MatchEntry(line, lineNo)
  }

  /** The entry grammar on a line: `Ok(None)` when it does not match. */
  function MatchEntry(line: string, lineNo: nat): (r: Result<Option<Entry>, CacheError>)
    ensures r.Ok? && r.value.Some? ==> var name := r.value.value.name;
      |name| < |line| && line[..|name|] == name && line[|name|] == ':' && '\n' !in name
  {
    match NameEnd(line, 0)
    case None => Ok(None)
    case Some(found) => EntryOf(line, lineNo, found.0, found.1)
  }

  /** The entry whose name ends at `i`, of type `t`: the name, and the value up to the line break. */
  function EntryOf(line: string, lineNo: nat, i: nat, t: CacheType): Result<Option<Entry>, CacheError>
    requires i + |TypeName(t)| + 2 <= |line|
  {
    AsEntry(line[..i], DecodeValue(t, UpToBreak(line[i + |TypeName(t)| + 2..]), lineNo, line))
  }

  /** The entry of a name and its decoded value, or the decoding error. */
  function AsEntry(name: string, decoded: Result<CacheValue, CacheError>): Result<Option<Entry>, CacheError> {
    match decoded
    case Err(e) => Err(e)
    case Ok(v) => Ok(Some(Entry(name, v)))
  }

  /** The line of a cache entry as CMake writes it. */
  function EntryLine(name: string, t: CacheType, raw: string): string {
    name + (":" + (TypeName(t) + ("=" + (raw + "\n"))))
  }

  /** A concatenation splits back into its two parts. */
  lemma Parts(a: string, b: string)
    ensures (a + b)[..|a|] == a && (a + b)[|a|..] == b
  {
  }

  /** The text of an entry line after the name and the ':'. */
  lemma AfterName(name: string, t: CacheType, raw: string)
    ensures var line := EntryLine(name, t, raw);
      |name| < |line| && line[..|name|] == name && line[|name|] == ':'
      && line[|name| + 1..] == TypeName(t) + ("=" + (raw + "\n"))
  {
    var tail := ":" + (TypeName(t) + ("=" + (raw + "\n")));
    Parts(name, tail);
    assert EntryLine(name, t, raw)[|name| + 1..] == tail[1..];
  }

  /** The text of an entry line after the type and the '='. */
  lemma AfterType(name: string, t: CacheType, raw: string)
    ensures var line := EntryLine(name, t, raw);
      |name| + |TypeName(t)| + 2 <= |line| && line[|name| + |TypeName(t)| + 2..] == raw + "\n"
  {
    AfterName(name, t, raw);
    var line := EntryLine(name, t, raw);
    var rest := TypeName(t) + ("=" + (raw + "\n"));
    Parts(TypeName(t), "=" + (raw + "\n"));
    assert line[|name| + |TypeName(t)| + 2..] == rest[|TypeName(t)| + 1..];
  }

  /** A name without ':' or line break is scanned over up to the ':' after it. */
  lemma NameEndEntry(name: string, t: CacheType, raw: string)
    requires ':' !in name && '\n' !in name
    ensures NameEnd(EntryLine(name, t, raw), 0) == Some((|name|, t))
  {
    var line := EntryLine(name, t, raw);
    EntryLineType(name, t, raw);
    AfterName(name, t, raw);
    EntryLineName(line, name);
    NameEndScan(line, |name|, t, 0);
  }

  /** The type of an entry line follows the ':' after the name. */
  lemma EntryLineType(name: string, t: CacheType, raw: string)
    ensures var line := EntryLine(name, t, raw);
      |name| < |line| && line[|name|] == ':' && TypeAt(line[|name| + 1..]) == Some(t)
  {
    var line := EntryLine(name, t, raw);
    AfterName(name, t, raw);
    assert line[|name| + 1..] == TypeName(t) + "=" + (raw + "\n");
    TypeAtName(t, raw + "\n");
  }

  /** A line that starts with a name without ':' or line break has neither before the name ends. */
  lemma EntryLineName(line: string, name: string)
    requires ':' !in name && '\n' !in name && |name| <= |line| && line[..|name|] == name
    ensures forall k :: 0 <= k < |name| ==> line[k] != ':' && line[k] != '\n'
  {
    forall k | 0 <= k < |name| ensures line[k] != ':' && line[k] != '\n' {
      assert line[k] == line[..|name|][k];
    }
  }

  /** The scan from `i` stops at the first ':' that a type and '=' follow, when no line break comes first. */
  lemma {:induction false} NameEndScan(line: string, n: nat, t: CacheType, i: nat)
    requires i <= n < |line| && line[n] == ':' && TypeAt(line[n + 1..]) == Some(t)
    requires forall k :: i <= k < n ==> line[k] != ':' && line[k] != '\n'
    ensures NameEnd(line, i) == Some((n, t))
    decreases n - i
  {
    if i < n {
      NameEndSkip(line, i);
      NameEndScan(line, n, t, i + 1);
    } else {
      NameEndColon(line, n, t);
    }
  }

  /** The scan goes past a character that is neither ':' nor a line break. */
  lemma NameEndSkip(line: string, i: nat)
    requires i < |line| && line[i] != ':' && line[i] != '\n'
    ensures NameEnd(line, i) == NameEnd(line, i + 1)
  {
  }

  /** The scan stops at a ':' that a type and '=' follow. */
  lemma NameEndColon(line: string, i: nat, t: CacheType)
    requires i < |line| && line[i] == ':' && TypeAt(line[i + 1..]) == Some(t)
    ensures NameEnd(line, i) == Some((i, t))
  {
  }

  /** A line that starts with a name that is no comment and a ':' is no comment. */
  lemma NoCommentPrefix(line: string, name: string)
    requires |name| < |line| && line[..|name|] == name && line[|name|] == ':'
    requires !("//" <= name) && !("#" <= name)
    ensures !("//" <= line) && !("#" <= line)
  {
    if |name| >= 2 { assert line[..2] == name[..2]; }
    if |name| >= 1 { assert line[0] == name[0]; }
  }

  /** `from_line()` of a line that is no comment and not blank is the entry grammar's match. */
  lemma FromLineNotComment(line: string, lineNo: nat)
    requires !("//" <= line) && !("#" <= line) && PyStr.Strip(line) != ""
    ensures FromLine(line, lineNo) == MatchEntry(line, lineNo)
  {
  }

  /** The entry grammar's match once the name and the type are found. */
  lemma MatchEntryAt(line: string, lineNo: nat, i: nat, t: CacheType)
    requires NameEnd(line, 0) == Some((i, t))
    ensures MatchEntry(line, lineNo) == EntryOf(line, lineNo, i, t)
  {
  }

  /** The entry at a found name, from its parts. */
  lemma EntryOfParts(line: string, lineNo: nat, name: string, t: CacheType, raw: string)
    requires |name| + |TypeName(t)| + 2 <= |line| && line[..|name|] == name
    requires UpToBreak(line[|name| + |TypeName(t)| + 2..]) == raw
    ensures EntryOf(line, lineNo, |name|, t) == AsEntry(name, DecodeValue(t, raw, lineNo, line))
  {
  }

  /** An entry line reads back as its name and its decoded value. */
  lemma FromEntryLine(name: string, t: CacheType, raw: string, lineNo: nat)
    requires ':' !in name && '\n' !in name && '\n' !in raw
    requires !("//" <= name) && !("#" <= name)
    ensures var line := EntryLine(name, t, raw);
      FromLine(line, lineNo) == AsEntry(name, DecodeValue(t, raw, lineNo, line))
  {
    var line := EntryLine(name, t, raw);
    assert !("//" <= line) && !("#" <= line) && PyStr.Strip(line) != "" && line[..|name|] == name by {
      AfterName(name, t, raw);
      NoCommentPrefix(line, name);
      PyStr.StripNotEmpty(line, |name|);
    }
    NameEndEntry(name, t, raw);
    assert UpToBreak(line[|name| + |TypeName(t)| + 2..]) == raw by {
      AfterType(name, t, raw);
      UpToBreakBreak(raw);
    }
    FromLineNotComment(line, lineNo);
    MatchEntryAt(line, lineNo, |name|, t);
    EntryOfParts(line, lineNo, name, t, raw);
  }

  lemma {:induction false} UpToBreakBreak(raw: string)
    requires '\n' !in raw
    ensures UpToBreak(raw + "\n") == raw
  {
    if raw != [] {
      assert (raw + "\n")[1..] == raw[1..] + "\n";
      UpToBreakBreak(raw[1..]);
      assert raw == [raw[0]] + raw[1..];
    }
  }

  /** A list-typed value holding ';' is split into items that join back to it. */
  lemma ListValueJoins(t: CacheType, raw: string, lineNo: nat, line: string)
    requires IsListType(t) && ';' in raw
    ensures DecodeValue(t, raw, lineNo, line).Ok?
    ensures DecodeValue(t, raw, lineNo, line).value.StrList?
    ensures PyStr.Join(DecodeValue(t, raw, lineNo, line).value.items, ';') == raw
  {
    PyStr.JoinSplit(raw, ';');
  }

  /** The decoded lines of a cache file, each numbered by its index. */
  function DecodeAll(lines: seq<string>): (r: seq<Result<Option<Entry>, CacheError>>)
    ensures |r| == |lines| && forall i :: 0 <= i < |lines| ==> r[i] == FromLine(lines[i], i)
  {
    seq(|lines|, i requires 0 <= i < |lines| => FromLine(lines[i], i))
  }

  /** The first decoding error, or else the entries by name, the last entry of a name winning. */
  function Collect(rs: seq<Result<Option<Entry>, CacheError>>): Result<map<string, CacheValue>, CacheError> {
    if rs == [] then Ok(map[])
    else
      match Collect(rs[..|rs| - 1])
      case Err(e) => Err(e)
      case Ok(m) =>
        match rs[|rs| - 1]
        case Err(e) => Err(e)
        case Ok(None) => Ok(m)
        case Ok(Some(e)) => Ok(m[e.name := e.value])
  }

  /** The `_entries` of a `CMakeCache`: every line decoded in order, the last entry of a name winning. */
  function Load(lines: seq<string>): Result<map<string, CacheValue>, CacheError> {
    Collect(DecodeAll(lines))
  }

  /** Result `i` is an entry for `name`. */
  predicate Defines(rs: seq<Result<Option<Entry>, CacheError>>, i: int, name: string) {
    0 <= i < |rs| && rs[i].Ok? && rs[i].value.Some? && rs[i].value.value.name == name
  }

  /** Result `i` is the last entry for `name`. */
  predicate LastDefines(rs: seq<Result<Option<Entry>, CacheError>>, i: int, name: string) {
    Defines(rs, i, name) && forall j :: i < j < |rs| ==> !Defines(rs, j, name)
  }

  /** Collecting fails exactly when some line failed to decode. */
  lemma {:induction false} CollectFails(rs: seq<Result<Option<Entry>, CacheError>>)
    ensures Collect(rs).Err? <==> exists i :: 0 <= i < |rs| && rs[i].Err?
  {
    if rs != [] {
      var init := rs[..|rs| - 1];
      CollectFails(init);
      if exists i :: 0 <= i < |init| && init[i].Err? {
        var i :| 0 <= i < |init| && init[i].Err?;
        assert rs[i] == init[i];
      }
      if exists i :: 0 <= i < |rs| && rs[i].Err? {
        var i :| 0 <= i < |rs| && rs[i].Err?;
        if i < |init| {
          assert init[i] == rs[i];
        }
      }
    }
  }

  /** The collected map names exactly the names some entry defines, each with the value of its last entry. */
  lemma {:induction false} CollectLastWins(rs: seq<Result<Option<Entry>, CacheError>>, name: string)
    requires Collect(rs).Ok?
    ensures name in Collect(rs).value <==> exists i :: Defines(rs, i, name)
    ensures forall i :: LastDefines(rs, i, name) ==>
      (name in Collect(rs).value && Collect(rs).value[name] == rs[i].value.value.value)
  {
    if rs != [] {
      var init := rs[..|rs| - 1];
      var last := |rs| - 1;
      CollectLastWins(init, name);
      var m := Collect(init).value;
      var r := rs[last];
      assert r.Ok?;
      if r.value.Some? {
        assert Collect(rs).value == m[r.value.value.name := r.value.value.value];
      } else {
        assert Collect(rs).value == m;
      }
      forall i | Defines(init, i, name)
        ensures Defines(rs, i, name)
      {
        assert rs[i] == init[i];
      }
      forall i | 0 <= i < last && Defines(rs, i, name)
        ensures Defines(init, i, name)
      {
        assert rs[i] == init[i];
      }
      if name in Collect(rs).value && !Defines(rs, last, name) {
        assert name in m;
        var i :| Defines(init, i, name);
        assert Defines(rs, i, name);
      }
      forall i | LastDefines(rs, i, name)
        ensures name in Collect(rs).value && Collect(rs).value[name] == rs[i].value.value.value
      {
        if i < last {
          assert !Defines(rs, last, name);
          assert Defines(init, i, name);
          forall j | i < j < |init| ensures !Defines(init, j, name) {
            assert rs[j] == init[j];
            assert !Defines(rs, j, name);
          }
          assert LastDefines(init, i, name);
        }
      }
    }
  }

  /** Loading fails exactly when some line fails to decode. */
  lemma LoadFails(lines: seq<string>)
    ensures Load(lines).Err? <==> exists i :: 0 <= i < |lines| && FromLine(lines[i], i).Err?
  {
    CollectFails(DecodeAll(lines));
  }

  /** The cache names exactly the names some line defines, each with the value of its last line. */
  lemma LoadLastWins(lines: seq<string>, name: string)
    requires Load(lines).Ok?
    ensures name in Load(lines).value <==> exists i :: Defines(DecodeAll(lines), i, name)
    ensures forall i :: LastDefines(DecodeAll(lines), i, name) ==>
      (name in Load(lines).value && Load(lines).value[name] == FromLine(lines[i], i).value.value.value)
  {
    CollectLastWins(DecodeAll(lines), name);
  }

  /** `CMakeCache.get()`: the raw value of an entry, `None` when not set. */
  function Get(entries: map<string, CacheValue>, name: string): (r: Option<CacheValue>)
    ensures r.Some? <==> name in entries
  {
    if name in entries then Some(entries[name]) else None
  }

  /** `CMakeCache.getbool()`: only a stored boolean `True` is true. */
  function GetBool(entries: map<string, CacheValue>, name: string): (r: bool)
    ensures r <==> name in entries && entries[name] == BoolValue(true)
  {
    Get(entries, name) == Some(BoolValue(true))
  }

  /** `CMakeCache.getstr()`: a non-empty string value, `None` for anything else. */
  function GetStr(entries: map<string, CacheValue>, name: string): (r: Option<string>)
    ensures r.Some? <==> name in entries && entries[name].Str? && entries[name].s != ""
    ensures r.Some? ==> r.value == entries[name].s
  {
    match Get(entries, name)
    case Some(Str(s)) => if s != "" then Some(s) else None
    case _ => None
  }

  /** `CMakeCache.getstrs()`: a non-empty string as one item, a list as it is, `[]` otherwise. */
  function GetStrs(entries: map<string, CacheValue>, name: string): (r: seq<string>)
    ensures GetStr(entries, name).Some? ==> r == [GetStr(entries, name).value]
    ensures name in entries && entries[name].StrList? ==> r == entries[name].items
    ensures r == [] <==> (name !in entries || entries[name].BoolValue? || entries[name] == Str("")
                          || entries[name] == StrList([]))
  {
    match Get(entries, name)
    case Some(Str(s)) => if s != "" then [s] else []
    case Some(StrList(items)) => items
    case _ => []
  }
}
