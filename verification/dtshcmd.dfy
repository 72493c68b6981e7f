/**
 * Shell commands and their options (`DtshCommandOption`, `DtshCommand`):
 * usage strings, the specifications handed to GNU getopt, resolution of an
 * option by its `-s` or `--long` name, flags, resetting and applying parsed
 * options, and completion of option names.
 *
 * Option objects are shared between a command's option list and the
 * options a caller resolves, so they are a class; names are `const`s and
 * only the parsed value changes. Python truthiness of an optional name is
 * `Named`; `is_flag` alone tests `is None`.
 */
module DtshCmd {
  import opened Wrappers
  import PyStr

  /** An optional name that is set and not empty (Python truthiness of `str | None`). */
  predicate Named(n: Option<string>) {
    n.Some? && n.value != ""
  }

  /** An option's value: `None` before parsing, `True` for a set flag, or an argument. */
  datatype OptValue = Unset | FlagValue(isSet: bool) | ArgValue(arg: string)

  class CommandOption {
    const desc: string
    const shortname: Option<string>
    const longname: Option<string>
    const argname: Option<string>
    var value: OptValue

    constructor(desc: string, shortname: Option<string>, longname: Option<string>, argname: Option<string>)
      ensures this.desc == desc && this.shortname == shortname
      ensures this.longname == longname && this.argname == argname
      ensures value == Unset
    {
      this.desc := desc;
      this.shortname := shortname;
      this.longname := longname;
      this.argname := argname;
      value := Unset;
    }

    /** `is_flag()`: the option expects no value (its argument name is `None`). */
    predicate IsFlag() {
      argname.None?
    }

    /** The option takes an argument as getopt and the parser see it (argument name truthy). */
    predicate TakesArg() {
      Named(argname)
    }

    /** `usage`: "-s", then " --long" (or "--long" alone), then " <arg>". */
    function Usage(): (r: string)
      ensures r == "" <==> !Named(shortname) && !Named(longname) && !Named(argname)
    {
      var short := if Named(shortname) then "-" + shortname.value else "";
      var names := if Named(longname) then
                     (if short != "" then short + " --" + longname.value else "--" + longname.value)
                   else short;
      if Named(argname) then names + " <" + argname.value + ">" else names
    }

    /** The words of the usage string: the dashed names, then the bracketed argument. */
    function UsageWords(): seq<string> {
      (if Named(shortname) then ["-" + shortname.value] else [])
      + (if Named(longname) then ["--" + longname.value] else [])
      + (if Named(argname) then ["<" + argname.value + ">"] else [])
    }

    /** `reset()`: back to the unparsed value. */
    method Reset()
      modifies this
      ensures value == Unset
    {
      value := Unset;
    }

    /** The `value` setter. */
    method SetValue(v: OptValue)
      modifies this
      ensures value == v
    {
      value := v;
    }
  }

  lemma JoinTwo(a: string, b: string)
    ensures PyStr.Join([a, b], ' ') == a + " " + b
  {
    assert [a, b][1..] == [b];
  }

  lemma JoinThree(a: string, b: string, c: string)
    ensures PyStr.Join([a, b, c], ' ') == a + " " + b + " " + c
  {
    assert [a, b, c][1..] == [b, c];
    JoinTwo(b, c);
  }

  /** Appending " <a>" is appending a space and the bracketed word. */
  lemma SpacedArg(x: string, a: string)
    ensures x + " <" + a + ">" == x + " " + ("<" + a + ">")
  {
  }

  /** Appending " --l" is appending a space and the dashed word. */
  lemma SpacedLong(x: string, l: string)
    ensures x + " --" + l == x + " " + ("--" + l)
  {
  }

  /** The usage string is its words joined by single spaces. */
  lemma UsageJoinsWords(o: CommandOption)
    requires Named(o.shortname) || Named(o.longname)
    ensures o.Usage() == PyStr.Join(o.UsageWords(), ' ')
  {
    var w := o.UsageWords();
    var names := if Named(o.shortname) then "-" + o.shortname.value else "";
    if Named(o.longname) {
      var n1 := "--" + o.longname.value;
      if Named(o.shortname) {
        SpacedLong(names, o.longname.value);
        names := names + " " + n1;
      } else {
        names := n1;
      }
    }
    assert Named(o.argname) ==> o.Usage() == names + " <" + o.argname.value + ">";
    assert !Named(o.argname) ==> o.Usage() == names;
    var prefix := if Named(o.shortname) then ["-" + o.shortname.value] else [];
    var words := prefix + (if Named(o.longname) then ["--" + o.longname.value] else []);
    assert PyStr.Join(words, ' ') == names by {
      if |words| == 2 {
        JoinTwo(words[0], words[1]);
      }
    }
    if Named(o.argname) {
      var arg := "<" + o.argname.value + ">";
      SpacedArg(names, o.argname.value);
      assert w == words + [arg];
      if |words| == 2 {
        assert w == [words[0], words[1], arg];
        JoinThree(words[0], words[1], arg);
      } else {
        assert w == [words[0], arg];
        JoinTwo(words[0], arg);
      }
    } else {
      assert w == words;
    }
  }

  /** Names without spaces make the usage string split back into its words. */
  lemma UsageSplits(o: CommandOption)
    requires Named(o.shortname) || Named(o.longname)
    requires o.shortname.Some? ==> ' ' !in o.shortname.value
    requires o.longname.Some? ==> ' ' !in o.longname.value
    requires o.argname.Some? ==> ' ' !in o.argname.value
    ensures PyStr.Split(o.Usage(), ' ') == o.UsageWords()
  {
    UsageJoinsWords(o);
    var w := o.UsageWords();
    forall k | 0 <= k < |w| ensures ' ' !in w[k] {
    }
    PyStr.SplitJoin(w, ' ');
  }

  /** An option with neither name: the usage string starts with a space. */
  lemma UsageWithoutNames(o: CommandOption)
    requires !Named(o.shortname) && !Named(o.longname) && Named(o.argname)
    ensures o.Usage() == " <" + o.argname.value + ">"
  {
  }

  // ---------------------------------------------------------------------
  // getopt specifications

  /** One option's part of the short specification: its short name, then ':' when it takes an argument. */
  function ShortOf(o: CommandOption): string {
    if Named(o.shortname) then o.shortname.value + (if o.TakesArg() then ":" else "") else ""
  }

  /** `getopt_short`: the short parts of the options, in option order. */
  function ShortSpec(opts: seq<CommandOption>): string {
    if opts == [] then "" else ShortSpec(opts[..|opts| - 1]) + ShortOf(opts[|opts| - 1])
  }

  /** One option's entry of the long specification: its long name, then '=' when it takes an argument. */
  function LongOf(o: CommandOption): (r: string)
    requires Named(o.longname)
  {
    o.longname.value + (if o.TakesArg() then "=" else "")
  }

  /** `getopt_long`: the long entries of the options that have a long name, in option order. */
  function LongSpec(opts: seq<CommandOption>): (r: seq<string>)
    ensures |r| <= |opts|
  {
    if opts == [] then []
    else
      var last := opts[|opts| - 1];
      LongSpec(opts[..|opts| - 1]) + (if Named(last.longname) then [LongOf(last)] else [])
  }

  /**
   * How getopt reads a short specification: the first occurrence of the
   * option letter (never ':') decides, and a ':' after it means the option
   * takes an argument; `None` is "option not recognized".
   */
  function ShortHasArg(c: char, spec: string): (r: Option<bool>)
    ensures r.Some? ==> c in spec && c != ':'
  {
    if spec == "" then None
    else if spec[0] == c && c != ':' then Some(|spec| > 1 && spec[1] == ':')
    else ShortHasArg(c, spec[1..])
  }

  /** How getopt reads a long specification, for an exact long name: "name" is a flag, "name=" takes an argument. */
  function LongHasArg(name: string, spec: seq<string>): (r: Option<bool>)
    ensures r == Some(false) <==> name in spec
    ensures r == Some(true) <==> name !in spec && name + "=" in spec
  {
    if name in spec then Some(false) else if name + "=" in spec then Some(true) else None
  }

  /** Short names are single letters other than ':', as getopt requires. */
  predicate ShortWellFormed(opts: seq<CommandOption>) {
    forall k :: 0 <= k < |opts| && Named(opts[k].shortname) ==>
      (|opts[k].shortname.value| == 1 && opts[k].shortname.value[0] != ':')
  }

  /** The option that getopt should find for a letter: the first one with that short name. */
  function FirstShortArg(opts: seq<CommandOption>, c: char): (r: Option<bool>)
    ensures r.Some? <==> exists k :: 0 <= k < |opts| && opts[k].shortname == Some([c])
  {
    if opts == [] then None
    else
      var front := FirstShortArg(opts[..|opts| - 1], c);
      var last := opts[|opts| - 1];
      if front.Some? then front
      else if last.shortname == Some([c]) then Some(last.TakesArg())
      else None
  }

  /** Scanning a concatenation finds the first part's answer first. */
  lemma {:induction false} ShortHasArgConcat(c: char, a: string, b: string)
    requires b == "" || b[0] != ':'
    ensures ShortHasArg(c, a + b) == if ShortHasArg(c, a).Some? then ShortHasArg(c, a) else ShortHasArg(c, b)
  {
    if a == "" {
      assert a + b == b;
    } else if a[0] == c && c != ':' {
      assert (a + b)[0] == c;
      if |a| > 1 {
        assert (a + b)[1] == a[1];
      }
    } else {
      assert (a + b)[0] == a[0];
      assert (a + b)[1..] == a[1..] + b;
      ShortHasArgConcat(c, a[1..], b);
    }
  }

  /** getopt reads `getopt_short` back: each letter gets the first option with that short name, and whether it takes an argument. */
  lemma {:induction false} ShortSpecHasArg(opts: seq<CommandOption>, c: char)
    requires ShortWellFormed(opts) && c != ':'
    ensures ShortHasArg(c, ShortSpec(opts)) == FirstShortArg(opts, c)
  {
    if opts != [] {
      var front := opts[..|opts| - 1];
      var last := opts[|opts| - 1];
      assert ShortWellFormed(front) by {
        forall k | 0 <= k < |front| && Named(front[k].shortname)
          ensures |front[k].shortname.value| == 1 && front[k].shortname.value[0] != ':'
        {
          assert front[k] == opts[k];
        }
      }
      ShortSpecHasArg(front, c);
      var part := ShortOf(last);
      ShortHasArgConcat(c, ShortSpec(front), part);
      if Named(last.shortname) {
        var s := last.shortname.value;
        assert |s| == 1 && s[0] != ':' by {
          assert opts[|opts| - 1] == last;
        }
        assert part[0] == s[0] && s == [s[0]];
        if part[0] == c {
          assert last.shortname == Some([c]);
        } else {
          assert ShortHasArg(c, part[1..]) == None;
        }
      }
    }
  }

  /** Long names are unique among the options. */
  predicate UniqueLongNames(opts: seq<CommandOption>) {
    forall i, j :: 0 <= i < j < |opts| && Named(opts[i].longname) && Named(opts[j].longname) ==>
      opts[i].longname != opts[j].longname
  }

  /** No long name ends in '=', which getopt reserves for "takes an argument". */
  predicate NoEqualsSuffix(opts: seq<CommandOption>) {
    forall i :: 0 <= i < |opts| && Named(opts[i].longname) ==>
      opts[i].longname.value[|opts[i].longname.value| - 1] != '='
  }

  /** The entries of `getopt_long` are exactly the long entries of the options with a long name. */
  lemma {:induction false} LongSpecMember(opts: seq<CommandOption>, e: string)
    ensures e in LongSpec(opts) <==> exists j :: 0 <= j < |opts| && Named(opts[j].longname) && e == LongOf(opts[j])
  {
    if opts != [] {
      var front := opts[..|opts| - 1];
      LongSpecMember(front, e);
      if exists j :: 0 <= j < |front| && Named(front[j].longname) && e == LongOf(front[j]) {
        var j :| 0 <= j < |front| && Named(front[j].longname) && e == LongOf(front[j]);
        assert opts[j] == front[j];
      }
      if exists j :: 0 <= j < |opts| && Named(opts[j].longname) && e == LongOf(opts[j]) {
        var j :| 0 <= j < |opts| && Named(opts[j].longname) && e == LongOf(opts[j]);
        if j < |front| {
          assert front[j] == opts[j];
        }
      }
    }
  }

  /** getopt reads `getopt_long` back: each long name is found, as a flag or as taking an argument. */
  lemma LongSpecHasArg(opts: seq<CommandOption>, i: nat)
    requires UniqueLongNames(opts) && NoEqualsSuffix(opts)
    requires i < |opts| && Named(opts[i].longname)
    ensures LongHasArg(opts[i].longname.value, LongSpec(opts)) == Some(opts[i].TakesArg())
  {
    var l := opts[i].longname.value;
    var spec := LongSpec(opts);
    var e := LongOf(opts[i]);
    LongSpecMember(opts, e);
    assert e in spec;
    if opts[i].TakesArg() {
      assert e == l + "=";
      LongFlagAbsent(opts, i);
    } else {
      assert e == l;
    }
  }

  /** The bare long name of an option that takes an argument is not itself an entry. */
  lemma LongFlagAbsent(opts: seq<CommandOption>, i: nat)
    requires UniqueLongNames(opts) && NoEqualsSuffix(opts)
    requires i < |opts| && Named(opts[i].longname) && opts[i].TakesArg()
    ensures opts[i].longname.value !in LongSpec(opts)
  {
    var l := opts[i].longname.value;
    assert l[|l| - 1] != '=';
    forall j | 0 <= j < |opts| && Named(opts[j].longname) ensures LongOf(opts[j]) != l {
      var e := LongOf(opts[j]);
      if opts[j].TakesArg() {
        assert e == opts[j].longname.value + "=";
        assert |e| == |l| ==> e[|e| - 1] != l[|l| - 1];
      } else {
        assert e == opts[j].longname.value;
        if j < i {
          assert opts[j].longname != opts[i].longname;
        } else {
          assert opts[i].longname != opts[j].longname;
        }
      }
    }
    LongSpecMember(opts, l);
  }

  // ---------------------------------------------------------------------
  // Resolving options by name

  /** `option()`'s test for one option: "--long" against the long name, else "-s" against the short name. */
  predicate Matches(name: string, o: CommandOption) {
    if "--" <= name && Named(o.longname) then name[2..] == o.longname.value
    else if "-" <= name && Named(o.shortname) then name[1..] == o.shortname.value
    else false
  }

  /** The index of the first option from `k` on that a name resolves to. */
  function FindFrom(opts: seq<CommandOption>, name: string, k: nat): (r: Option<nat>)
    requires k <= |opts|
    ensures r.Some? ==> k <= r.value < |opts| && Matches(name, opts[r.value])
    ensures r.Some? ==> forall j :: k <= j < r.value ==> !Matches(name, opts[j])
    ensures r.None? ==> forall j :: k <= j < |opts| ==> !Matches(name, opts[j])
    decreases |opts| - k
  {
    if k == |opts| then None
    else if Matches(name, opts[k]) then Some(k)
    else FindFrom(opts, name, k + 1)
  }

  /** The option a name resolves to: the first that matches, or none. */
  function Resolve(opts: seq<CommandOption>, name: string): (r: Option<CommandOption>)
    ensures r.Some? ==> r.value in opts && Matches(name, r.value)
    ensures r.None? ==> forall o :: o in opts ==> !Matches(name, o)
  {
    match FindFrom(opts, name, 0)
    case Some(i) => Some(opts[i])
    case None => None
  }

  /** The help option appended last is what "-h" resolves to, unless an earlier option is also "-h". */
  lemma HelpResolves(opts: seq<CommandOption>, help: CommandOption)
    requires help.shortname == Some("h") && help.longname == Some("help")
    requires forall k :: 0 <= k < |opts| ==> opts[k].shortname != Some("h")
    requires forall k :: 0 <= k < |opts| ==> opts[k].longname != Some("help") && opts[k].shortname != Some("-help")
    ensures Resolve(opts + [help], "-h") == Some(help)
    ensures Resolve(opts + [help], "--help") == Some(help)
  {
    var all := opts + [help];
    forall k | 0 <= k < |opts| ensures !Matches("-h", all[k]) && !Matches("--help", all[k]) {
      assert all[k] == opts[k];
      assert "-h"[1..] == "h";
      assert "--help"[2..] == "help";
      assert "--help"[1..] == "-help";
    }
    assert "-h"[1..] == "h" && "--help"[2..] == "help";
    assert !("--" <= "-h") by { assert "-h"[1] != '-'; }
    assert "--" <= "--help" && "-" <= "-h";
    assert Matches("-h", all[|opts|]) && Matches("--help", all[|opts|]);
  }

  // ---------------------------------------------------------------------
  // Applying parsed options

  /** The value `parse_argv` gives an option found in getopt's output. */
  function ValueFor(o: CommandOption, arg: string): (r: OptValue)
    ensures r.FlagValue? <==> !o.TakesArg()
  {
    if o.TakesArg() then ArgValue(arg) else FlagValue(true)
  }

  /** The value set by the last of the parsed (name, argument) pairs that resolves to `o`, if any. */
  function LastSet(opts: seq<CommandOption>, parsed: seq<(string, string)>, o: CommandOption): Option<OptValue> {
    if parsed == [] then None
    else
      var p := parsed[|parsed| - 1];
      if Resolve(opts, p.0) == Some(o) then Some(ValueFor(o, p.1))
      else LastSet(opts, parsed[..|parsed| - 1], o)
  }

  /** An option's value after `parse_argv`: what the pairs set last, or `None`. */
  function Parsed(opts: seq<CommandOption>, parsed: seq<(string, string)>, o: CommandOption): OptValue {
    LastSet(opts, parsed, o).GetOr(Unset)
  }

  /** A flag is set after parsing exactly when some parsed name resolves to it, however often it was given. */
  lemma {:induction false} FlagParsed(opts: seq<CommandOption>, parsed: seq<(string, string)>, o: CommandOption)
    requires o.IsFlag()
    ensures Parsed(opts, parsed, o) == FlagValue(true) <==> exists i :: 0 <= i < |parsed| && Resolve(opts, parsed[i].0) == Some(o)
    ensures Parsed(opts, parsed, o) != FlagValue(true) ==> Parsed(opts, parsed, o) == Unset
  {
    if parsed != [] {
      var front := parsed[..|parsed| - 1];
      FlagParsed(opts, front, o);
      if exists i :: 0 <= i < |front| && Resolve(opts, front[i].0) == Some(o) {
        var i :| 0 <= i < |front| && Resolve(opts, front[i].0) == Some(o);
        assert parsed[i] == front[i];
      }
      if exists i :: 0 <= i < |parsed| && Resolve(opts, parsed[i].0) == Some(o) {
        var i :| 0 <= i < |parsed| && Resolve(opts, parsed[i].0) == Some(o);
        if i < |front| {
          assert front[i] == parsed[i];
        }
      }
    }
  }

  /** An option taking an argument keeps the argument of the last pair that names it. */
  lemma {:induction false} ArgLastWins(opts: seq<CommandOption>, parsed: seq<(string, string)>, o: CommandOption, i: nat)
    requires o.TakesArg()
    requires i < |parsed| && Resolve(opts, parsed[i].0) == Some(o)
    requires forall j :: i < j < |parsed| ==> Resolve(opts, parsed[j].0) != Some(o)
    ensures Parsed(opts, parsed, o) == ArgValue(parsed[i].1)
  {
    if i < |parsed| - 1 {
      var front := parsed[..|parsed| - 1];
      assert front[i] == parsed[i];
      forall j | i < j < |front| ensures Resolve(opts, front[j].0) != Some(o) {
        assert front[j] == parsed[j];
      }
      ArgLastWins(opts, front, o, i);
    }
  }

  // ---------------------------------------------------------------------
  // Completion of option names

  /** The options with a short name, in order (`shortopts`). */
  function WithShort(opts: seq<CommandOption>): (r: seq<CommandOption>)
    ensures |r| <= |opts|
    ensures forall k :: 0 <= k < |r| ==> Named(r[k].shortname)
  {
    if opts == [] then []
    else
      var last := opts[|opts| - 1];
      WithShort(opts[..|opts| - 1]) + (if Named(last.shortname) then [last] else [])
  }

  /** The options with a long name that are not among `shorts`, in order (`otheropts`). */
  function LongOnly(opts: seq<CommandOption>, shorts: seq<CommandOption>): (r: seq<CommandOption>)
    ensures |r| <= |opts|
    ensures forall k :: 0 <= k < |r| ==> Named(r[k].longname) && r[k] !in shorts
  {
    if opts == [] then []
    else
      var last := opts[|opts| - 1];
      LongOnly(opts[..|opts| - 1], shorts) + (if Named(last.longname) && last !in shorts then [last] else [])
  }

  /** The options whose long name completes `p`: all long names for an empty `p`, else those `p` is a proper prefix of. */
  function LongCompletions(opts: seq<CommandOption>, p: string): (r: seq<CommandOption>)
    ensures |r| <= |opts|
  {
    if opts == [] then []
    else
      var last := opts[|opts| - 1];
      var keep := Named(last.longname) && (p == "" || (p <= last.longname.value && |last.longname.value| > |p|));
      LongCompletions(opts[..|opts| - 1], p) + (if keep then [last] else [])
  }

  /** `autocomplete_option()`: all named options for "-", long-name completions for "--p", else nothing. */
  function Completions(opts: seq<CommandOption>, prefix: string): seq<CommandOption> {
    if prefix == "-" then WithShort(opts) + LongOnly(opts, WithShort(opts))
    else if "--" <= prefix then LongCompletions(opts, prefix[2..])
    else []
  }

  lemma {:induction false} WithShortMember(opts: seq<CommandOption>, o: CommandOption)
    ensures o in WithShort(opts) <==> o in opts && Named(o.shortname)
  {
    if opts != [] {
      var front := opts[..|opts| - 1];
      WithShortMember(front, o);
      assert opts == front + [opts[|opts| - 1]];
    }
  }

  lemma {:induction false} LongOnlyMember(opts: seq<CommandOption>, shorts: seq<CommandOption>, o: CommandOption)
    ensures o in LongOnly(opts, shorts) <==> o in opts && Named(o.longname) && o !in shorts
  {
    if opts != [] {
      var front := opts[..|opts| - 1];
      LongOnlyMember(front, shorts, o);
      assert opts == front + [opts[|opts| - 1]];
    }
  }

  lemma {:induction false} LongCompletionsMember(opts: seq<CommandOption>, p: string, o: CommandOption)
    ensures o in LongCompletions(opts, p) <==> o in opts && Named(o.longname) && (p == "" || p < o.longname.value)
  {
    if opts != [] {
      var front := opts[..|opts| - 1];
      LongCompletionsMember(front, p, o);
      assert opts == front + [opts[|opts| - 1]];
    }
  }

  /** "-" completes to every option with a name, those with a short name first. */
  lemma CompletionsDash(opts: seq<CommandOption>)
    ensures forall o :: o in Completions(opts, "-") <==> o in opts && (Named(o.shortname) || Named(o.longname))
    ensures var r := Completions(opts, "-");
      forall i, j :: 0 <= i < j < |r| && !Named(r[i].shortname) ==> !Named(r[j].shortname)
  {
    var shorts := WithShort(opts);
    var others := LongOnly(opts, shorts);
    var r := Completions(opts, "-");
    forall o ensures o in r <==> o in opts && (Named(o.shortname) || Named(o.longname)) {
      WithShortMember(opts, o);
      LongOnlyMember(opts, shorts, o);
    }
    forall i, j | 0 <= i < j < |r| && !Named(r[i].shortname) ensures !Named(r[j].shortname) {
      assert i >= |shorts|;
      assert r[j] == others[j - |shorts|];
      assert r[j] in others;
      LongOnlyMember(opts, shorts, r[j]);
      WithShortMember(opts, r[j]);
    }
  }

  /** "--p" completes to the options whose long name strictly extends `p`; any other prefix but "-" to nothing. */
  lemma CompletionsLong(opts: seq<CommandOption>, prefix: string)
    ensures "--" <= prefix ==>
      (forall o :: o in Completions(opts, prefix) <==>
        o in opts && Named(o.longname) && (prefix == "--" || prefix[2..] < o.longname.value))
    ensures prefix != "-" && !("--" <= prefix) ==> Completions(opts, prefix) == []
  {
    if "--" <= prefix {
      assert prefix != "-";
      forall o ensures o in Completions(opts, prefix) <==>
        o in opts && Named(o.longname) && (prefix == "--" || prefix[2..] < o.longname.value)
      {
        LongCompletionsMember(opts, prefix[2..], o);
      }
    }
  }

  // ---------------------------------------------------------------------
  // Commands

  class DtshCommand {
    const name: string
    const desc: string
    /** The supported options: the given ones, then "--pager" when asked for, then "-h"/"--help". */
    const options: seq<CommandOption>
    /** The command string's components that are not parsed options. */
    var params: seq<string>

    constructor(name: string, desc: string, withPager: bool, opts: seq<CommandOption>)
      ensures this.name == name && this.desc == desc && params == []
      ensures |options| == |opts| + (if withPager then 2 else 1)
      ensures options[..|opts|] == opts
      ensures withPager ==> fresh(options[|opts|])
      ensures withPager ==> options[|opts|].shortname == None && options[|opts|].longname == Some("pager")
      ensures withPager ==> options[|opts|].IsFlag() && options[|opts|].value == Unset
      ensures var help := options[|options| - 1];
        fresh(help) && help.shortname == Some("h") && help.longname == Some("help")
        && help.IsFlag() && help.value == Unset
    {
      this.name := name;
      this.desc := desc;
      params := [];
      var all := opts;
      if withPager {
        var pager := new CommandOption("page command output", None, Some("pager"), None);
        all := all + [pager];
      }
      var help := new CommandOption("print usage summary", Some("h"), Some("help"), None);
      options := all + [help];
    }

    /** `getopt_short`. */
    method GetoptShort() returns (shortopts: string)
      ensures shortopts == ShortSpec(options)
    {
      shortopts := "";
      for i := 0 to |options|
        invariant shortopts == ShortSpec(options[..i])
      {
        var opt := options[i];
        assert options[..i + 1][..i] == options[..i];
        if Named(opt.shortname) {
          shortopts := shortopts + opt.shortname.value;
          if Named(opt.argname) {
            shortopts := shortopts + ":";
          }
        }
      }
      assert options[..|options|] == options;
    }

    /** `getopt_long`. */
    method GetoptLong() returns (longopts: seq<string>)
      ensures longopts == LongSpec(options)
    {
      longopts := [];
      for i := 0 to |options|
        invariant longopts == LongSpec(options[..i])
      {
        var opt := options[i];
        assert options[..i + 1][..i] == options[..i];
        if Named(opt.longname) {
          var longopt := opt.longname.value;
          if Named(opt.argname) {
            longopt := longopt + "=";
          }
          assert longopt == LongOf(opt) && options[..i + 1][i] == opt;
          longopts := longopts + [longopt];
        }
      }
      assert options[..|options|] == options;
    }

    /** `option()`: the first option a "-s" or "--long" name resolves to. */
    method Option(name: string) returns (r: Option<CommandOption>)
      ensures r == Resolve(options, name)
    {
      for i := 0 to |options|
        invariant FindFrom(options, name, 0) == FindFrom(options, name, i)
      {
        var opt := options[i];
        if "--" <= name && Named(opt.longname) {
          if name[2..] == opt.longname.value {
            return Some(opt);
          }
        } else if "-" <= name && Named(opt.shortname) {
          if name[1..] == opt.shortname.value {
            return Some(opt);
          }
        }
      }
      return None;
    }

    /** `with_flag()`: the name resolves to a flag whose value is `True`. */
    predicate WithFlag(name: string)
      reads options
    {
      match Resolve(options, name)
      case Some(o) => o.IsFlag() && o.value == FlagValue(true)
      case None => false
    }

    /** `with_pager`. */
    predicate WithPager()
      reads options
    {
      WithFlag("--pager")
    }

    /** `with_usage_summary`. */
    predicate WithUsageSummary()
      reads options
    {
      WithFlag("-h")
    }

    /** `reset()`: every option back to `None`, no parameters. */
    method Reset()
      modifies options, this
      ensures forall o :: o in options ==> o.value == Unset
      ensures params == []
      ensures forall name :: !WithFlag(name)
    {
      for i := 0 to |options|
        invariant forall k :: 0 <= k < i ==> options[k].value == Unset
      {
        options[i].Reset();
      }
      params := [];
    }

    /**
     * `parse_argv()` after getopt: reset, keep the remaining arguments as
     * parameters, and give each parsed option its value (the argument, or
     * `True` for an option without argument name).
     */
    method ParseArgv(parsedOpts: seq<(string, string)>, rest: seq<string>)
      modifies options, this
      ensures params == rest
      ensures forall o :: o in options ==> o.value == Parsed(options, parsedOpts, o)
    {
      Reset();
      params := rest;
      for i := 0 to |parsedOpts|
        invariant params == rest
        invariant forall o :: o in options ==> o.value == Parsed(options, parsedOpts[..i], o)
      {
        var (optName, optArg) := parsedOpts[i];
        assert parsedOpts[..i + 1][..i] == parsedOpts[..i];
        var opt := Option(optName);
        if opt.Some? {
          var o := opt.value;
          if Named(o.argname) {
            o.SetValue(ArgValue(optArg));
          } else {
            o.SetValue(FlagValue(true));
          }
        }
      }
      assert parsedOpts[..|parsedOpts|] == parsedOpts;
    }

    /** `autocomplete_option()`. */
    method AutocompleteOption(prefix: string) returns (completions: seq<CommandOption>)
      ensures completions == Completions(options, prefix)
    {
      completions := [];
      if prefix == "-" {
        var shortopts := WithShort(options);
        completions := completions + shortopts;
        completions := completions + LongOnly(options, shortopts);
      } else if "--" <= prefix {
        var p := prefix[2..];
        for i := 0 to |options|
          invariant completions == LongCompletions(options[..i], p)
        {
          var opt := options[i];
          assert options[..i + 1][..i] == options[..i];
          if !Named(opt.longname) {
            continue;
          }
          if p == "" {
            completions := completions + [opt];
            continue;
          }
          if p <= opt.longname.value && |opt.longname.value| > |p| {
            completions := completions + [opt];
          }
        }
        assert options[..|options|] == options;
      }
    }
  }
}
