/**
 * Command-line arguments of the shell commands that feed the query engine:
 * `--fixed-depth`, the integer-expression criteria (`[OP] N [UNIT]`),
 * `--order-by` and its key table, and the path and extended-path
 * parameters. Each argument keeps the raw text it was given and the value
 * parsed from it; a parse error is returned as the `DTShError` message.
 */
module ShellArgs {
  import opened Wrappers
  import PyStr
  import DTSUtil
  import opened Criteria
  import opened Sorting

  /** Python's truth value of an optional string: set and not empty. */
  predicate Truthy(raw: Option<string>) {
    raw.Some? && raw.value != ""
  }

  /** Why a raw argument was refused. */
  datatype ArgError =
    | NotAnInteger(raw: string)
    | Negative(value: int)
    | InvalidExpression(raw: string)
    | InvalidOperator(op: string)
    | NotANumber(text: string)
    | NotAnSIUnit(unit: string)
    | InvalidSortKey(key: string)
    | PropertyNotFound(name: string)

  /** The message of the `DTShError` each refusal raises. */
  function Message(e: ArgError): string {
    match e
    case NotAnInteger(raw) => "expects an integer value (got '" + raw + "')"
    case Negative(value) => "expects a non negative value (got " + PyStr.IntStr(value) + ")"
    case InvalidExpression(raw) => "invalid integer expression: '" + raw + "'"
    case InvalidOperator(op) => "invalid operator: '" + op + "'"
    case NotANumber(text) => "not a number: '" + text + "'"
    case NotAnSIUnit(unit) => "not an SI unit: '" + unit + "'"
    case InvalidSortKey(key) => "invalid sort key: '" + key + "'"
    case PropertyNotFound(name) => "property not found: '" + name + "'"
  }

  // ---------------------------------------------------------------- fixed depth

  /** `parsed()` of `--fixed-depth`: a Python integer that is not negative. */
  function ParseDepth(raw: string): Result<nat, ArgError> {
    match PyStr.PyInt(raw)
    case None => Err(NotAnInteger(raw))
    case Some(depth) => if depth < 0 then Err(Negative(depth)) else Ok(depth)
  }

  /** Every non-negative depth written in decimal parses back to itself. */
  lemma ParseDepthDecimal(n: nat)
    ensures ParseDepth(PyStr.DecDigits(n)) == Ok(n)
  {
    PyStr.PyIntDecDigits(n);
  }

  /** A negative number is refused. */
  lemma ParseDepthNegative(n: nat)
    requires n > 0
    ensures ParseDepth("-" + PyStr.DecDigits(n)) == Err(Negative(-(n as int)))
  {
    var d := PyStr.DecDigits(n);
    var s := "-" + d;
    PyStr.StripTrimmed(s);
    assert s[1..] == d;
    PyStr.DecDigitsGroups(n);
    PyStr.DecValueDecDigits(n);
  }

  /** `DTShArgFixedDepth`: the raw argument and the depth parsed from it. */
  class FixedDepthArg {
    var raw: Option<string>
    var parsedDepth: Option<nat>

    constructor()
      ensures raw.None? && parsedDepth.None?
    {
      raw := None;
      parsedDepth := None;
    }

    /** The depth limit; 0 (no limit) when unset. */
    function Depth(): (d: nat)
      reads this
      ensures parsedDepth.None? ==> d == 0
    {
      parsedDepth.GetOr(0)
    }

    /** `reset()`. */
    method Reset()
      modifies this
      ensures raw.None? && parsedDepth.None? && Depth() == 0
    {
      raw := None;
      parsedDepth := None;
    }

    /** `parsed()`: a set argument must be a non-negative integer; on error the depth is left as it was. */
    method Parsed(value: Option<string>) returns (err: Option<ArgError>)
      modifies this
      ensures raw == value
      ensures !Truthy(value) ==> err.None? && parsedDepth == old(parsedDepth)
      ensures Truthy(value) ==> match ParseDepth(value.value)
        case Ok(d) => err.None? && parsedDepth == Some(d) && Depth() == d
        case Err(e) => err == Some(e) && parsedDepth == old(parsedDepth)
    {
      raw := value;
      err := None;
      if Truthy(value) {
        match ParseDepth(value.value)
        case Ok(d) => parsedDepth := Some(d);
        case Err(e) => err := Some(e);
      }
    }
  }

  // ---------------------------------------------------------------- integer expressions

  /** The character classes of the expression grammar. */
  datatype CharClass = OpClass | SpaceClass | IntClass | UnitClass

  predicate InClass(c: char, cls: CharClass) {
    match cls
    case OpClass => IsOpChar(c)
    case SpaceClass => PyStr.IsSpace(c)
    case IntClass => IsIntChar(c)
    case UnitClass => IsUnitChar(c)
  }

  /** Split `s` into its longest prefix of `cls` characters and the rest. */
  function Munch(s: string, cls: CharClass): (r: (string, string))
    ensures r.0 + r.1 == s
    ensures forall k :: 0 <= k < |r.0| ==> InClass(r.0[k], cls)
    ensures r.1 == [] || !InClass(r.1[0], cls)
  {
    if s == [] || !InClass(s[0], cls) then ([], s)
    else
      var (a, b) := Munch(s[1..], cls);
      ([s[0]] + a, b)
  }

  /** A run of `cls` characters followed by something that is not one is split there. */
  lemma {:induction false} MunchOf(a: string, b: string, cls: CharClass)
    requires forall k :: 0 <= k < |a| ==> InClass(a[k], cls)
    requires b == [] || !InClass(b[0], cls)
    ensures Munch(a + b, cls) == (a, b)
  {
    if a != [] {
      assert (a + b)[1..] == a[1..] + b;
      MunchOf(a[1..], b, cls);
      assert [a[0]] + a[1..] == a;
    } else {
      assert a + b == b;
    }
  }

  /** `[<>=!]` */
  predicate IsOpChar(c: char) {
    c in "<>=!"
  }

  /** `[\da-fA-FxX]` */
  predicate IsIntChar(c: char) {
    PyStr.IsDigit(c) || 'a' <= c <= 'f' || 'A' <= c <= 'F' || c == 'x' || c == 'X'
  }

  /** `[kKbBmM]` */
  predicate IsUnitChar(c: char) {
    c in "kKbBmM"
  }

  /** A character the expression grammar can use somewhere. */
  predicate InGrammar(c: char) {
    IsOpChar(c) || PyStr.IsSpace(c) || IsIntChar(c) || IsUnitChar(c)
  }

  /** Every character of `s` belongs to the grammar. */
  predicate Grammatical(s: string) {
    forall k :: 0 <= k < |s| ==> InGrammar(s[k])
  }

  /** Every character of `s` belongs to the grammar, except perhaps a final newline. */
  predicate Acceptable(s: string) {
    forall q :: 0 <= q < |s| ==> InGrammar(s[q]) || (q == |s| - 1 && s[q] == '\n')
  }

  lemma AcceptablePrepend(a: string, b: string)
    requires Grammatical(a) && Acceptable(b)
    ensures Acceptable(a + b)
  {
    assert forall q :: |a| <= q < |a + b| ==> (a + b)[q] == b[q - |a|];
  }

  /** The groups of a match: operator, integer and unit text (empty when absent). */
  datatype Groups = Groups(op: string, integer: string, unit: string)

  /** The five stages of the scan; `end` is what is left after the unit. */
  datatype Stages = Stages(op: string, space1: string, integer: string, space2: string, unit: string, end: string)

  function Stage(s: string): (r: Stages)
    ensures r.op + (r.space1 + (r.integer + (r.space2 + (r.unit + r.end)))) == s
  {
    var m1 := Munch(s, OpClass);
    var m2 := Munch(m1.1, SpaceClass);
    var m3 := Munch(m2.1, IntClass);
    var m4 := Munch(m3.1, SpaceClass);
    var m5 := Munch(m4.1, UnitClass);
    Stages(m1.0, m2.0, m3.0, m4.0, m5.0, m5.1)
  }

  /**
   * `re.match(r"^(?P<operator>[<>=!]+)?[\s]*(?P<integer>[\da-fA-FxX]+)[\s]*(?P<unit>[kKbBmM]+)?$", s)`.
   * The classes only share `b`/`B` (integer and unit), and the greedy
   * integer group keeps them, so this left-to-right scan finds the match
   * Python's backtracking finds; `$` also accepts a final "\n".
   */
  function Scan(s: string): (r: Option<Groups>)
    ensures r.Some? ==> s != [] && r.value.integer != [] && r.value.op <= s
    ensures r.Some? ==> (r.value.op == [] <==> !IsOpChar(s[0]))
    ensures r.Some? ==> forall k :: 0 <= k < |r.value.op| ==> IsOpChar(r.value.op[k])
    ensures r.Some? ==> forall k :: 0 <= k < |r.value.integer| ==> IsIntChar(r.value.integer[k])
    ensures r.Some? ==> forall k :: 0 <= k < |r.value.unit| ==> IsUnitChar(r.value.unit[k])
  {
    var st := Stage(s);
    if st.integer == [] || (st.end != "" && st.end != "\n") then None
    else
      var tail := st.space1 + (st.integer + (st.space2 + (st.unit + st.end)));
      assert s == st.op + tail;
      assert |tail| > 0;
      assert st.op == [] ==> s[0] == tail[0];
      Some(Groups(st.op, st.integer, st.unit))
  }

  /** Only characters of the grammar, and a final newline, can take part in a match. */
  lemma ScanSound(s: string)
    requires Scan(s).Some?
    ensures Acceptable(s)
  {
    var st := Stage(s);
    AcceptablePrepend(st.unit, st.end);
    AcceptablePrepend(st.space2, st.unit + st.end);
    AcceptablePrepend(st.integer, st.space2 + (st.unit + st.end));
    AcceptablePrepend(st.space1, st.integer + (st.space2 + (st.unit + st.end)));
    AcceptablePrepend(st.op, st.space1 + (st.integer + (st.space2 + (st.unit + st.end))));
  }

  /** Input with a character outside the grammar (other than a final newline) does not match. */
  lemma ScanRejects(s: string, q: nat)
    requires q < |s| && !InGrammar(s[q]) && !(q == |s| - 1 && s[q] == '\n')
    ensures Scan(s).None?
  {
    if Scan(s).Some? {
      ScanSound(s);
    }
  }

  /** The scan splits an operator, a number and a unit back into its groups. */
  lemma ScanGroups(op: string, integer: string, unit: string)
    requires forall k :: 0 <= k < |op| ==> IsOpChar(op[k])
    requires integer != [] && forall k :: 0 <= k < |integer| ==> IsIntChar(integer[k])
    requires forall k :: 0 <= k < |unit| ==> IsUnitChar(unit[k])
    requires unit == [] || !IsIntChar(unit[0])
    ensures Scan(op + integer + unit) == Some(Groups(op, integer, unit))
  {
    var s := op + integer + unit;
    var rest := integer + unit;
    assert s == op + rest;
    assert rest[0] == integer[0];
    MunchOf(op, rest, OpClass);
    MunchOf([], rest, SpaceClass);
    assert [] + rest == rest;
    MunchOf(integer, unit, IntClass);
    MunchOf([], unit, SpaceClass);
    assert [] + unit == unit;
    MunchOf(unit, [], UnitClass);
    assert unit + [] == unit;
    var st := Stage(s);
    assert st == Stages(op, [], integer, [], unit, []);
  }

  /** The operator table `DTNodeIntCriterion.OPERATORS`. */
  function OpOf(op: string): Option<IntOp> {
    if op == "<" then Some(Lt)
    else if op == ">" then Some(Gt)
    else if op == "=" then Some(Eq)
    else if op == ">=" then Some(Ge)
    else if op == "<=" then Some(Le)
    else if op == "!=" then Some(Ne)
    else None
  }

  /** The text of each operator. */
  function OpText(op: IntOp): (r: string)
    ensures OpOf(r) == Some(op)
    ensures r != [] && forall k :: 0 <= k < |r| ==> IsOpChar(r[k])
  {
    match op
    case Lt => "<"
    case Gt => ">"
    case Eq => "="
    case Ge => ">="
    case Le => "<="
    case Ne => "!="
  }

  /** The table holds exactly the six operator texts. */
  lemma OpOfExact(s: string, op: IntOp)
    ensures OpOf(s) == Some(op) <==> s == OpText(op)
  {
  }

  function BinValue(s: string): nat {
    if s == [] then 0 else 2 * BinValue(s[..|s| - 1]) + (if s[|s| - 1] == '1' then 1 else 0)
  }

  /** The digit classes of `int(…, base=0)`. */
  datatype Radix = Bin | Dec | Hex | Zero

  predicate IsRadixDigit(c: char, radix: Radix) {
    match radix
    case Bin => c == '0' || c == '1'
    case Dec => PyStr.IsDigit(c)
    case Hex => IsHexDigit(c)
    case Zero => c == '0'
  }

  predicate AllDigits(s: string, radix: Radix) {
    forall k :: 0 <= k < |s| ==> IsRadixDigit(s[k], radix)
  }

  predicate IsHexDigit(c: char) {
    PyStr.IsDigit(c) || 'a' <= c <= 'f' || 'A' <= c <= 'F'
  }

  /**
   * `int(s, base=0)` on what the integer group can hold: `0x`/`0X` then
   * hexadecimal digits, `0b`/`0B` then binary digits, or a decimal numeral
   * that has no leading zero unless it is all zeros. `None` is the `ValueError`.
   */
  function PyIntBase0(s: string): (r: Option<nat>)
    ensures r.Some? ==> s != []
  {
    if |s| >= 2 && s[0] == '0' && (s[1] == 'x' || s[1] == 'X') then
      var body := s[2..];
      if body != [] && AllDigits(body, Hex) then Some(DTSUtil.HexValue(body)) else None
    else if |s| >= 2 && s[0] == '0' && (s[1] == 'b' || s[1] == 'B') then
      var body := s[2..];
      if body != [] && AllDigits(body, Bin) then Some(BinValue(body)) else None
    else if s != [] && AllDigits(s, Dec) && (s[0] != '0' || AllDigits(s, Zero)) then
      Some(PyStr.DecValue(s))
    else None
  }

  /** A decimal numeral starts with a non-zero digit unless it is "0". */
  lemma {:induction false} DecDigitsHead(n: nat)
    ensures n > 0 ==> PyStr.DecDigits(n)[0] != '0'
    ensures n == 0 ==> PyStr.DecDigits(n) == "0"
    decreases n
  {
    if n >= 10 {
      DecDigitsHead(n / 10);
    }
  }

  /** `int(…, base=0)` reads back a decimal numeral. */
  lemma PyIntBase0Decimal(n: nat)
    ensures PyIntBase0(PyStr.DecDigits(n)) == Some(n)
  {
    var d := PyStr.DecDigits(n);
    DecDigitsHead(n);
    PyStr.DecValueDecDigits(n);
    assert PyStr.IsDigit(d[0]);
    if |d| >= 2 {
      assert PyStr.IsDigit(d[1]);
    }
  }

  /** `int(…, base=0)` reads `0x` and lower-case hexadecimal digits as their value. */
  lemma PyIntBase0LowerHex(t: string)
    requires |t| > 2 && t[..2] == "0x" && forall k :: 2 <= k < |t| ==> DTSUtil.IsLowerHex(t[k])
    ensures PyIntBase0(t) == Some(DTSUtil.HexValue(t[2..]))
    ensures forall k :: 0 <= k < |t| ==> IsIntChar(t[k])
  {
    assert t[0] == t[..2][0] && t[1] == t[..2][1];
    assert forall k :: 0 <= k < |t[2..]| ==> t[2..][k] == t[k + 2];
  }

  /** The multiplier of a unit: `k`/`kb` is 1024 and `m`/`mb` is 1024², in any case. */
  function UnitFactor(unit: string): Option<nat> {
    var u := PyStr.Lower(unit);
    if u == "k" || u == "kb" then Some(1024)
    else if u == "m" || u == "mb" then Some(1024 * 1024)
    else None
  }

  /** The criterion the groups of a match spell, checked in the order the source checks them. */
  function FromGroups(g: Groups): (r: Result<IntCriterion, ArgError>)
    ensures r.Ok? ==> r.value.value.Some? && (r.value.op.None? <==> g.op == [])
  {
    var op := if g.op == "" then Ok(None)
      else if OpOf(g.op).Some? then Ok(OpOf(g.op))
      else Err(InvalidOperator(g.op));
    if op.Err? then Err(op.error)
    else match PyIntBase0(g.integer)
      case None => Err(NotANumber(g.integer))
      case Some(n) =>
        if g.unit == "" then Ok(IntCriterion(op.value, Some(n)))
        else match UnitFactor(g.unit)
          case None => Err(NotAnSIUnit(PyStr.Lower(g.unit)))
          case Some(f) => Ok(IntCriterion(op.value, Some(n * f)))
  }

  /**
   * The refusals of the groups, in the order they are checked: an operator
   * outside the table, then an integer `int(…, base=0)` refuses, then a
   * unit that is neither k/kb nor m/mb, reported in lower case.
   */
  lemma FromGroupsRefusals(g: Groups)
    ensures g.op != "" && OpOf(g.op).None? ==> FromGroups(g) == Err(InvalidOperator(g.op))
    ensures (g.op == "" || OpOf(g.op).Some?) && PyIntBase0(g.integer).None?
      ==> FromGroups(g) == Err(NotANumber(g.integer))
    ensures (g.op == "" || OpOf(g.op).Some?) && PyIntBase0(g.integer).Some? && g.unit != "" && UnitFactor(g.unit).None?
      ==> FromGroups(g) == Err(NotAnSIUnit(PyStr.Lower(g.unit)))
  {
  }

  /** "1 KK": the unknown unit is reported as "kk". */
  lemma UnknownUnitLowered()
    ensures FromGroups(Groups("", "1", "KK")) == Err(NotAnSIUnit("kk"))
    ensures Message(FromGroups(Groups("", "1", "KK")).error) == "not an SI unit: 'kk'"
  {
    assert PyIntBase0("1") == Some(1);
    assert PyStr.Lower("KK") == "kk";
  }

  /** `DTShArgIntCriterion.parsed()` on a set raw argument. */
  function ParseIntExpr(raw: string): (r: Result<IntCriterion, ArgError>)
    ensures raw == "*" ==> r == Ok(IntCriterion(None, None))
    ensures r.Ok? && raw != "*" ==> r.value.value.Some?
    ensures r.Ok? && raw != "*" ==> raw != [] && (r.value.op.None? <==> !IsOpChar(raw[0]))
  {
    if raw == "*" then Ok(IntCriterion(None, None))
    else
      match Scan(raw)
      case None => Err(InvalidExpression(raw))
      case Some(g) => FromGroups(g)
  }

  /** An expression holding a character outside the grammar is refused as invalid. */
  lemma ParseIntExprInvalid(raw: string, q: nat)
    requires raw != "*" && q < |raw| && !InGrammar(raw[q]) && !(q == |raw| - 1 && raw[q] == '\n')
    ensures ParseIntExpr(raw) == Err(InvalidExpression(raw))
  {
    ScanRejects(raw, q);
  }

  /** An operator, a decimal number and no unit parse back to the criterion they spell. */
  lemma ParseIntExprRoundTrip(op: IntOp, n: nat)
    ensures ParseIntExpr(OpText(op) + PyStr.DecDigits(n)) == Ok(IntCriterion(Some(op), Some(n)))
  {
    var d := PyStr.DecDigits(n);
    ScanGroups(OpText(op), d, "");
    assert OpText(op) + d + "" == OpText(op) + d;
    PyIntBase0Decimal(n);
    assert FromGroups(Groups(OpText(op), d, "")) == Ok(IntCriterion(Some(op), Some(n)));
  }

  /** A unit the table knows is one or two unit characters, starting with `k` or `m` in either case. */
  lemma UnitFactorChars(unit: string)
    requires UnitFactor(unit).Some?
    ensures forall k :: 0 <= k < |unit| ==> IsUnitChar(unit[k])
    ensures unit[0] in "kKmM"
  {
    var u := PyStr.Lower(unit);
    assert |unit| == |u|;
    forall k | 0 <= k < |unit|
      ensures IsUnitChar(unit[k]) && (k == 0 ==> unit[k] in "kKmM")
    {
      assert PyStr.LowerChar(unit[k]) == u[k];
    }
  }

  /** Without an operator the criterion keeps the default (equality); a known unit scales the number. */
  lemma ParseIntExprUnit(n: nat, unit: string)
    requires unit == "" || UnitFactor(unit).Some?
    ensures ParseIntExpr(PyStr.DecDigits(n) + unit)
         == Ok(IntCriterion(None, Some(if unit == "" then n else n * UnitFactor(unit).value)))
  {
    var d := PyStr.DecDigits(n);
    var raw := d + unit;
    if unit != "" {
      UnitFactorChars(unit);
    }
    ScanGroups("", d, unit);
    assert "" + d + unit == raw;
    assert raw[0] == d[0] && raw != "*";
    ParseIntExprScanned(raw, Groups("", d, unit));
    FromGroupsDecimal(n, unit);
  }

  /** An expression other than "*" that scans into groups parses as those groups do. */
  lemma ParseIntExprScanned(raw: string, g: Groups)
    requires raw != "*" && Scan(raw) == Some(g)
    ensures ParseIntExpr(raw) == FromGroups(g)
  {
  }

  lemma FromGroupsDecimal(n: nat, unit: string)
    requires unit == "" || UnitFactor(unit).Some?
    ensures FromGroups(Groups("", PyStr.DecDigits(n), unit))
         == Ok(IntCriterion(None, Some(if unit == "" then n else n * UnitFactor(unit).value)))
  {
    PyIntBase0Decimal(n);
  }

  /** The units of the table, in any case, and nothing else. */
  lemma UnitFactorTable(unit: string)
    ensures UnitFactor(unit) == Some(1024) <==> unit in {"k", "K", "kb", "kB", "Kb", "KB"}
    ensures UnitFactor(unit) == Some(1024 * 1024) <==> unit in {"m", "M", "mb", "mB", "Mb", "MB"}
  {
    var u := PyStr.Lower(unit);
    if |unit| == 1 {
      assert u == [PyStr.LowerChar(unit[0])];
      assert unit == [unit[0]];
    } else if |unit| == 2 {
      assert u == [PyStr.LowerChar(unit[0]), PyStr.LowerChar(unit[1])];
      assert unit == [unit[0], unit[1]];
    } else {
      assert |u| == |unit|;
    }
  }

  /** A value written by the DTS formatter (`0x` and zero-padded hexadecimal) reads back as that value. */
  lemma ParseIntExprIntText(v: nat)
    ensures ParseIntExpr(DTSUtil.IntText(v, false)) == Ok(IntCriterion(None, Some(v)))
  {
    DTSUtil.IntTextDigits(v);
    ParseIntExprLowerHex(DTSUtil.IntText(v, false));
  }

  lemma ParseIntExprLowerHex(t: string)
    requires |t| > 2 && t[..2] == "0x" && forall k :: 2 <= k < |t| ==> DTSUtil.IsLowerHex(t[k])
    ensures ParseIntExpr(t) == Ok(IntCriterion(None, Some(DTSUtil.HexValue(t[2..]))))
  {
    PyIntBase0LowerHex(t);
    ScanGroups("", t, "");
    assert "" + t + "" == t;
    assert FromGroups(Groups("", t, "")) == Ok(IntCriterion(None, Some(DTSUtil.HexValue(t[2..]))));
  }

  /** An operator outside the table is refused, e.g. "=>1". */
  lemma ParseIntExprBadOperator(op: string, n: nat)
    requires op != [] && forall k :: 0 <= k < |op| ==> IsOpChar(op[k])
    requires OpOf(op).None?
    ensures ParseIntExpr(op + PyStr.DecDigits(n)) == Err(InvalidOperator(op))
  {
    var d := PyStr.DecDigits(n);
    ScanGroups(op, d, "");
    assert op + d + "" == op + d;
    assert (op + d)[0] == op[0];
  }

  /** `DTShArgIntCriterion`: the raw expression and the criterion parsed from it. */
  class IntCriterionArg {
    var raw: Option<string>
    var criterion: Option<IntCriterion>

    constructor()
      ensures raw.None? && criterion.None?
    {
      raw := None;
      criterion := None;
    }

    /** `reset()`. */
    method Reset()
      modifies this
      ensures raw.None? && criterion.None?
    {
      raw := None;
      criterion := None;
    }

    /** `parsed()`: an unset or empty argument leaves the criterion alone. */
    method Parsed(value: Option<string>) returns (err: Option<ArgError>)
      modifies this
      ensures raw == value
      ensures !Truthy(value) ==> err.None? && criterion == old(criterion)
      ensures Truthy(value) ==> match ParseIntExpr(value.value)
        case Ok(c) => err.None? && criterion == Some(c)
        case Err(e) => err == Some(e) && criterion == old(criterion)
    {
      raw := value;
      err := None;
      if Truthy(value) {
        match ParseIntExpr(value.value)
        case Ok(c) => criterion := Some(c);
        case Err(e) => err := Some(e);
      }
    }
  }

  // ---------------------------------------------------------------- order-by

  /** `DTSH_NODE_ORDER_BY`: the sort key each one-letter specifier selects. */
  function OrderByKey(key: string): Option<SortKey> {
    if key == "p" then Some(PathKey)
    else if key == "N" then Some(NodeNameKey)
    else if key == "n" then Some(UnitNameKey)
    else if key == "a" then Some(UnitAddrKey)
    else if key == "c" then Some(CompatiblesKey)
    else if key == "C" then Some(BindingKey)
    else if key == "v" then Some(VendorKey)
    else if key == "l" then Some(DeviceLabelKey)
    else if key == "L" then Some(NodeLabelsKey)
    else if key == "A" then Some(AliasesKey)
    else if key == "B" then Some(BusesKey)
    else if key == "b" then Some(OnBusKey)
    else if key == "o" then Some(DepOrdinalKey)
    else if key == "i" then Some(IrqNumberKey)
    else if key == "I" then Some(IrqPriorityKey)
    else if key == "r" then Some(RegAddrKey)
    else if key == "s" then Some(RegSizeKey)
    else if key == "X" then Some(BindingDepthKey)
    else None
  }

  /** The specifier of each sort key. */
  function OrderBySpecifier(k: SortKey): string {
    match k
    case PathKey => "p"
    case NodeNameKey => "N"
    case UnitNameKey => "n"
    case UnitAddrKey => "a"
    case CompatiblesKey => "c"
    case BindingKey => "C"
    case VendorKey => "v"
    case DeviceLabelKey => "l"
    case NodeLabelsKey => "L"
    case AliasesKey => "A"
    case BusesKey => "B"
    case OnBusKey => "b"
    case DepOrdinalKey => "o"
    case IrqNumberKey => "i"
    case IrqPriorityKey => "I"
    case RegAddrKey => "r"
    case RegSizeKey => "s"
    case BindingDepthKey => "X"
  }

  /** Every sorter has exactly one specifier, and every specifier one sorter. */
  lemma OrderByTable(key: string, k: SortKey)
    ensures OrderByKey(key) == Some(k) <==> key == OrderBySpecifier(k)
  {
  }

  /** `DTShArgOrderBy`: the raw key and the sorter it selects. */
  class OrderByArg {
    var raw: Option<string>
    var sorter: Option<SortKey>

    constructor()
      ensures raw.None? && sorter.None?
    {
      raw := None;
      sorter := None;
    }

    /** `reset()`. */
    method Reset()
      modifies this
      ensures raw.None? && sorter.None?
    {
      raw := None;
      sorter := None;
    }

    /** `parsed()`: a set key must be in the table. */
    method Parsed(value: Option<string>) returns (err: Option<ArgError>)
      modifies this
      ensures raw == value
      ensures !Truthy(value) ==> err.None? && sorter == old(sorter)
      ensures Truthy(value) && OrderByKey(value.value).Some? ==> err.None? && sorter == OrderByKey(value.value)
      ensures Truthy(value) && OrderByKey(value.value).None? ==>
        err == Some(InvalidSortKey(value.value)) && sorter == old(sorter)
    {
      raw := value;
      err := None;
      if Truthy(value) {
        var k := OrderByKey(value.value);
        if k.Some? {
          sorter := k;
        } else {
          err := Some(InvalidSortKey(value.value));
        }
      }
    }
  }

  // ---------------------------------------------------------------- paths

  /** `DTShParamDTPaths.paths`: the given paths, or the single empty path (the current branch). */
  function Paths(raw: seq<string>): (r: seq<string>)
    ensures |r| >= 1
    ensures raw != [] ==> r == raw
    ensures raw == [] ==> r == [""]
  {
    if raw != [] then raw else [""]
  }

  /** `DTShParamDTPathX.xpath`: split at the last "$" into path and property. */
  function XPath(raw: seq<string>): (r: (string, Option<string>))
    ensures raw == [] ==> r == ("", None)
    ensures raw != [] && r.1.None? ==> r.0 == raw[0] && '$' !in raw[0]
    ensures raw != [] && r.1.Some? ==> r.0 + "$" + r.1.value == raw[0] && '$' !in r.1.value
  {
    if raw == [] then ("", None)
    else
      var path := raw[0];
      var i := PyStr.RFind(path, '$');
      if i != -1 then
        assert path == path[..i] + "$" + path[i + 1..];
        (path[..i], Some(path[i + 1..]))
      else (path, None)
  }

  /** A path and a property name without "$" are split back apart. */
  lemma XPathRoundTrip(path: string, prop: string)
    requires '$' !in prop
    ensures XPath([path + "$" + prop]) == (path, Some(prop))
  {
    var x := path + "$" + prop;
    var i := PyStr.RFind(x, '$');
    assert x[|path|] == '$';
    assert forall k :: |path| < k < |x| ==> x[k] == prop[k - |path| - 1];
    assert i == |path|;
    assert x[..i] == path && x[i + 1..] == prop;
  }

  /** The names in `names` that start with `prefix`, in order. */
  function WithPrefix(names: seq<string>, prefix: string): (r: seq<string>)
    ensures forall x :: x in r <==> x in names && prefix <= x
  {
    if names == [] then []
    else (if prefix <= names[0] then [names[0]] else []) + WithPrefix(names[1..], prefix)
  }

  /**
   * The property part of `xsplit()`, on the node's property names: none
   * without "$", every name with the prefix for a trailing "*", otherwise
   * the named property, which must exist.
   */
  function XSplitProps(names: seq<string>, prop: Option<string>): (r: Result<Option<seq<string>>, ArgError>)
    ensures prop.None? ==> r == Ok(None)
    ensures prop.Some? && PyStr.EndsWith(prop.value, "*") ==>
      r.Ok? && r.value.Some? && forall x :: x in r.value.value <==> x in names && prop.value[..|prop.value| - 1] <= x
    ensures prop.Some? && !PyStr.EndsWith(prop.value, "*") ==>
      (r.Ok? <==> prop.value in names) && (r.Ok? ==> r.value == Some([prop.value]))
  {
    match prop
    case None => Ok(None)
    case Some(p) =>
      if PyStr.EndsWith(p, "*") then Ok(Some(WithPrefix(names, p[..|p| - 1])))
      else if p in names then Ok(Some([p]))
      else Err(PropertyNotFound(p))
  }
}
