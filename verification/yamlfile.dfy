/**
 * A lazily loaded YAML binding file (`YAMLFile`): the text is read when it
 * is first needed, parsed when the model is first needed, and searched for
 * `include:` directives when the includes are first needed; each step runs
 * at most once and never raises on I/O or YAML errors, it records them.
 * The file system (path to text) and the YAML loader (text to document)
 * are parameters.
 */
module YamlFile {
  import opened Wrappers
  import PyStr

  /** A YAML document node, as the loader returns it (`None` is `YNull`). */
  datatype Yaml =
    | YNull
    | YBool(b: bool)
    | YInt(i: int)
    | YStr(s: string)
    | YList(items: seq<Yaml>)
    | YMap(entries: map<string, Yaml>)

  /** What the loader makes of a text: a document, or a YAML syntax error. */
  datatype Loaded = Parsed(doc: Yaml) | SyntaxError

  /** The errors a `YAMLFile` records in `lasterr`. */
  datatype LoadError = OsError(path: string) | YamlError(path: string)

  /** Python truthiness of a document node. */
  predicate Truthy(y: Yaml) {
    match y
    case YNull => false
    case YBool(b) => b
    case YInt(i) => i != 0
    case YStr(s) => s != ""
    case YList(items) => items != []
    case YMap(entries) => entries != map[]
  }

  const EmptyMap := YMap(map[])

  /** The file is read only when its path is set, and reading fails when the file is missing. */
  predicate ReadFails(path: string, files: map<string, string>) {
    path != "" && path !in files
  }

  /** `_init_content()`: the stripped text of the file, or "" when it cannot be read. */
  function ContentOf(path: string, files: map<string, string>): (c: string)
    ensures ReadFails(path, files) || path == "" ==> c == ""
    ensures path != "" && path in files ==> c == PyStr.Strip(files[path])
  {
    if path != "" && path in files then PyStr.Strip(files[path]) else ""
  }

  /**
   * `_init_model()` once the text is known, as written: an empty text or a
   * syntax error leaves the empty mapping, and otherwise the loaded
   * document is stored, `None` included, which reads as "not yet loaded".
   */
  function ModelAsWritten(c: string, loaded: Loaded): (r: Option<Yaml>)
    ensures c == "" || loaded.SyntaxError? ==> r == Some(EmptyMap)
    ensures r.None? <==> c != "" && loaded == Parsed(YNull)
  {
    if c == "" then Some(EmptyMap)
    else
      match loaded
      case SyntaxError => Some(EmptyMap)
      case Parsed(d) => if d == YNull then None else Some(d)
  }

  /** `_init_model()` once the text is known, loading an empty document as the empty mapping. */
  function ModelOf(c: string, loaded: Loaded): (r: Yaml)
    ensures c == "" || loaded.SyntaxError? || loaded == Parsed(YNull) ==> r == EmptyMap
    ensures c != "" && loaded.Parsed? && loaded.doc != YNull ==> r == loaded.doc
  {
    match ModelAsWritten(c, loaded)
    case None => EmptyMap
    case Some(d) => d
  }

  /** The as-written model differs from the corrected one only on an empty document, which it leaves unloaded. */
  lemma ModelCorrection(c: string, loaded: Loaded)
    ensures ModelAsWritten(c, loaded).Some? ==> ModelAsWritten(c, loaded).value == ModelOf(c, loaded)
    ensures ModelAsWritten(c, loaded).None? ==> ModelOf(c, loaded) == EmptyMap && !Truthy(ModelOf(c, loaded))
  {
  }

  /** A binding file holding only a comment loads as `None`, so the as-written model stays unloaded. */
  lemma CommentOnlyFileUnloaded()
    ensures ModelAsWritten("# no content", Parsed(YNull)) == None
    ensures ModelOf("# no content", Parsed(YNull)) == EmptyMap
  {
  }

  /** One item of an `include:` list: a string is kept, a mapping gives its truthy `name`. */
  function ItemInclude(item: Yaml): (r: seq<Yaml>)
    ensures |r| <= 1
    ensures item.YStr? ==> r == [item]
    ensures r != [] && !item.YStr? ==>
      (item.YMap? && "name" in item.entries && r == [item.entries["name"]] && Truthy(r[0]))
  {
    if item.YStr? then [item]
    else if item.YMap? && "name" in item.entries && Truthy(item.entries["name"]) then [item.entries["name"]]
    else []
  }

  /** The includes of an `include:` list, item by item in order. */
  function ListIncludes(items: seq<Yaml>): (r: seq<Yaml>)
    ensures |r| <= |items|
  {
    if items == [] then [] else ListIncludes(items[..|items| - 1]) + ItemInclude(items[|items| - 1])
  }

  /** Includes of two lists in a row are the includes of each, in order. */
  lemma {:induction false} ListIncludesConcat(a: seq<Yaml>, b: seq<Yaml>)
    ensures ListIncludes(a + b) == ListIncludes(a) + ListIncludes(b)
    decreases |b|
  {
    if b == [] {
      assert a + b == a;
    } else {
      var init := b[..|b| - 1];
      assert (a + b)[..|a + b| - 1] == a + init;
      assert (a + b)[|a + b| - 1] == b[|b| - 1];
      ListIncludesConcat(a, init);
    }
  }

  /** A list of strings is its own include list. */
  lemma {:induction false} ListIncludesStrings(items: seq<Yaml>)
    requires forall k :: 0 <= k < |items| ==> items[k].YStr?
    ensures ListIncludes(items) == items
  {
    if items != [] {
      ListIncludesStrings(items[..|items| - 1]);
    }
  }

  /** Every include comes from a string item or is the truthy name of a mapping item. */
  lemma {:induction false} ListIncludesSources(items: seq<Yaml>, y: Yaml)
    requires y in ListIncludes(items)
    ensures (y.YStr? && y in items)
      || (Truthy(y) && exists m :: m in items && m.YMap? && "name" in m.entries && m.entries["name"] == y)
  {
    var init := items[..|items| - 1];
    var last := items[|items| - 1];
    if y in ListIncludes(init) {
      ListIncludesSources(init, y);
      if y.YStr? && y in init {
        assert y in items;
      } else {
        var m :| m in init && m.YMap? && "name" in m.entries && m.entries["name"] == y;
        assert m in items;
      }
    } else {
      assert y in ItemInclude(last);
      assert last in items;
    }
  }

  /** The includes of the `include:` value: a string alone, a list item by item, nothing otherwise. */
  function IncludeNames(inc: Yaml): (r: seq<Yaml>)
    ensures inc.YStr? ==> r == [inc]
    ensures !inc.YStr? && !inc.YList? ==> r == []
  {
    match inc
    case YStr(_) => [inc]
    case YList(items) => ListIncludes(items)
    case _ => []
  }

  /** The `AttributeError` of `raw.get()` on a document that is not a mapping. */
  datatype AttrError = NotAMapping

  /**
   * `_init_includes()` once the model is known: nothing for an empty model,
   * the includes of the `include:` entry of a mapping, `Err` for any other
   * document (it has no `get()`).
   */
  function IncludesOf(raw: Yaml): (r: Result<seq<Yaml>, AttrError>)
    ensures r.Err? <==> Truthy(raw) && !raw.YMap?
    ensures !Truthy(raw) ==> r == Ok([])
    ensures r.Ok? && raw.YMap? && "include" !in raw.entries ==> r.value == []
    ensures r.Ok? && raw.YMap? && "include" in raw.entries ==> r.value == IncludeNames(raw.entries["include"])
  {
    if !Truthy(raw) then Ok([])
    else if !raw.YMap? then Err(NotAMapping)
    else if "include" in raw.entries then Ok(IncludeNames(raw.entries["include"]))
    else Ok([])
  }

  /** `lasterr` after an attempt to read the file. */
  function ErrAfterRead(lasterr: Option<LoadError>, path: string, files: map<string, string>): Option<LoadError> {
    if ReadFails(path, files) then Some(OsError(path)) else lasterr
  }

  /** `lasterr` after an attempt to parse the text `c`. */
  function ErrAfterParse(lasterr: Option<LoadError>, path: string, c: string, loaded: Loaded): Option<LoadError> {
    if c != "" && loaded.SyntaxError? then Some(YamlError(path)) else lasterr
  }

  /** `YAMLFile`: the path and the lazily set content, model, includes and last error. */
  class YAMLFile {
    const path: string
    var content: Option<string>
    var raw: Option<Yaml>
    var includes: Option<seq<Yaml>>
    var lasterr: Option<LoadError>

    /** Nothing is read until it is needed. */
    constructor(path: string)
      ensures this.path == path
      ensures content == None && raw == None && includes == None && lasterr == None
    {
      this.path := path;
      content := None;
      raw := None;
      includes := None;
      lasterr := None;
    }

    /** `_init_content()`: read the file once; a failed read leaves "" and records the error. */
    method InitContent(files: map<string, string>)
      modifies this
      ensures old(content).Some? ==> content == old(content) && lasterr == old(lasterr)
      ensures old(content).None? ==>
        (content == Some(ContentOf(path, files)) && lasterr == ErrAfterRead(old(lasterr), path, files))
      ensures raw == old(raw) && includes == old(includes)
    {
      if content.Some? {
        return;
      }
      content := Some("");
      if path != "" {
        if path in files {
          content := Some(PyStr.Strip(files[path]));
        } else {
          lasterr := Some(OsError(path));
        }
      }
    }

    /** `_init_model()` as written: the loaded document is stored even when it is `None`. */
    method InitModelAsWritten(files: map<string, string>, load: string -> Loaded)
      modifies this
      ensures old(raw).Some? ==> content == old(content) && raw == old(raw) && lasterr == old(lasterr)
      ensures old(raw).None? ==>
        (content.Some? && content == (if old(content).Some? then old(content) else Some(ContentOf(path, files))))
      ensures old(raw).None? ==> raw == ModelAsWritten(content.value, load(content.value))
      ensures old(raw).None? ==> lasterr == ErrAfterParse(
        if old(content).Some? then old(lasterr) else ErrAfterRead(old(lasterr), path, files),
        path, content.value, load(content.value))
      ensures includes == old(includes)
    {
      if raw.Some? {
        return;
      }
      raw := Some(EmptyMap);
      InitContent(files);
      if content.value == "" {
        return;
      }
      match load(content.value)
      case Parsed(d) =>
        raw := if d == YNull then None else Some(d);
      case SyntaxError =>
        lasterr := Some(YamlError(path));
    }

    /** `_init_model()`: parse the content once; an empty text, empty document or syntax error leave `{}`. */
    method InitModel(files: map<string, string>, load: string -> Loaded)
      modifies this
      ensures old(raw).Some? ==> content == old(content) && raw == old(raw) && lasterr == old(lasterr)
      ensures old(raw).None? ==>
        (content.Some? && content == (if old(content).Some? then old(content) else Some(ContentOf(path, files))))
      ensures old(raw).None? ==> raw == Some(ModelOf(content.value, load(content.value)))
      ensures old(raw).None? ==> lasterr == ErrAfterParse(
        if old(content).Some? then old(lasterr) else ErrAfterRead(old(lasterr), path, files),
        path, content.value, load(content.value))
      ensures raw.Some? && includes == old(includes)
    {
      if raw.Some? {
        return;
      }
      raw := Some(EmptyMap);
      InitContent(files);
      if content.value == "" {
        return;
      }
      match load(content.value)
      case Parsed(d) =>
        raw := Some(if d == YNull then EmptyMap else d);
      case SyntaxError =>
        lasterr := Some(YamlError(path));
    }

    /**
     * `_init_includes()`: search the model once for `include:`, loading it
     * as the code does (an empty document leaves the model unloaded);
     * `raised` is the `AttributeError` of a document that is not a mapping,
     * after which the includes stay empty.
     */
    method InitIncludes(files: map<string, string>, load: string -> Loaded) returns (raised: bool)
      modifies this
      ensures old(includes).Some? ==>
        (!raised && includes == old(includes) && content == old(content) && raw == old(raw) && lasterr == old(lasterr))
      ensures old(includes).None? && old(raw).Some? ==>
        (raw == old(raw) && content == old(content) && lasterr == old(lasterr))
      ensures old(includes).None? && old(raw).None? ==>
        (content.Some? && content == (if old(content).Some? then old(content) else Some(ContentOf(path, files)))
         && raw == ModelAsWritten(content.value, load(content.value)))
      ensures old(includes).None? && old(raw).None? ==> lasterr == ErrAfterParse(
        if old(content).Some? then old(lasterr) else ErrAfterRead(old(lasterr), path, files),
        path, content.value, load(content.value))
      ensures old(includes).None? && raw.None? ==> !raised && includes == Some([])
      ensures old(includes).None? && raw.Some? ==>
        ((raised <==> IncludesOf(raw.value).Err?)
         && includes == Some(if raised then [] else IncludesOf(raw.value).value))
    {
      if includes.Some? {
        return false;
      }
      includes := Some([]);
      InitModelAsWritten(files, load);
      if raw.None? {
        return false;
      }
      var model := raw.value;
      if !Truthy(model) {
        return false;
      }
      if !model.YMap? {
        return true;
      }
      raised := false;
      if "include" in model.entries {
        var inc := model.entries["include"];
        if inc.YStr? {
          includes := Some(includes.value + [inc]);
          assert includes.value == [inc];
        } else if inc.YList? {
          AppendListIncludes(inc.items);
          assert includes.value == ListIncludes(inc.items);
        }
      }
    }

    /** The loop of `_init_includes()` over an `include:` list, appending to the includes. */
    method AppendListIncludes(items: seq<Yaml>)
      requires includes.Some?
      modifies this
      ensures includes == Some(old(includes).value + ListIncludes(items))
      ensures content == old(content) && raw == old(raw) && lasterr == old(lasterr)
    {
      ghost var start := includes.value;
      assert items[..0] == [] && start + [] == start;
      for i := 0 to |items|
        invariant includes == Some(start + ListIncludes(items[..i]))
        invariant content == old(content) && raw == old(raw) && lasterr == old(lasterr)
      {
        assert items[..i + 1][..i] == items[..i];
        assert ListIncludes(items[..i + 1]) == ListIncludes(items[..i]) + ItemInclude(items[i]);
        var item := items[i];
        ghost var before := includes.value;
        if item.YStr? {
          includes := Some(includes.value + [item]);
        } else if item.YMap? {
          if "name" in item.entries && Truthy(item.entries["name"]) {
            includes := Some(includes.value + [item.entries["name"]]);
          }
        }
        assert includes.value == before + ItemInclude(item);
        assert before + ItemInclude(item) == start + (ListIncludes(items[..i]) + ItemInclude(item));
      }
      assert items[..|items|] == items;
    }
  }
}
