/**
 * Long listing formats (`DTShNodeFmt`, `DTShArgLongFmt` and the helpers of
 * `DTShCommandLongFmt`): a format string is a word of one-letter
 * specifiers, each naming a column of the node table.
 */
module LongFmt {
  import opened Wrappers
  import opened Nodes
  import opened Sorting
  import opened Walking
  import PyStr
  import ModelView

  /** The columns of `DTSH_NODE_FMT_SPEC`, in table order. */
  datatype Column =
    | PathCol | NodeNameCol | UnitNameCol | UnitAddrCol | DepOrdinalCol
    | DeviceLabelCol | NodeLabelsCol | CompatibleCol | BindingCol | BindingDepthCol
    | DescriptionCol | VendorCol | StatusCol | AliasesCol | AlsoKnownAsCol
    | OnBusCol | BusesCol | BusCol | IrqsCol | RegistersCol
    | RegisterRangesCol | DependsOnCol | RequiredByCol

  /** The specifier keys, in table order. */
  const Specifiers: string := "pNnaolLcCXdvsAKbBYirRDT"

  /** The table lookup `DTSH_NODE_FMT_SPEC[spec]`. */
  function ColumnOf(spec: char): Option<Column> {
    match spec
    case 'p' => Some(PathCol)
    case 'N' => Some(NodeNameCol)
    case 'n' => Some(UnitNameCol)
    case 'a' => Some(UnitAddrCol)
    case 'o' => Some(DepOrdinalCol)
    case 'l' => Some(DeviceLabelCol)
    case 'L' => Some(NodeLabelsCol)
    case 'c' => Some(CompatibleCol)
    case 'C' => Some(BindingCol)
    case 'X' => Some(BindingDepthCol)
    case 'd' => Some(DescriptionCol)
    case 'v' => Some(VendorCol)
    case 's' => Some(StatusCol)
    case 'A' => Some(AliasesCol)
    case 'K' => Some(AlsoKnownAsCol)
    case 'b' => Some(OnBusCol)
    case 'B' => Some(BusesCol)
    case 'Y' => Some(BusCol)
    case 'i' => Some(IrqsCol)
    case 'r' => Some(RegistersCol)
    case 'R' => Some(RegisterRangesCol)
    case 'D' => Some(DependsOnCol)
    case 'T' => Some(RequiredByCol)
    case _ => None
  }

  /** The specifier of each column. */
  function SpecOf(col: Column): char {
    match col
    case PathCol => 'p'
    case NodeNameCol => 'N'
    case UnitNameCol => 'n'
    case UnitAddrCol => 'a'
    case DepOrdinalCol => 'o'
    case DeviceLabelCol => 'l'
    case NodeLabelsCol => 'L'
    case CompatibleCol => 'c'
    case BindingCol => 'C'
    case BindingDepthCol => 'X'
    case DescriptionCol => 'd'
    case VendorCol => 'v'
    case StatusCol => 's'
    case AliasesCol => 'A'
    case AlsoKnownAsCol => 'K'
    case OnBusCol => 'b'
    case BusesCol => 'B'
    case BusCol => 'Y'
    case IrqsCol => 'i'
    case RegistersCol => 'r'
    case RegisterRangesCol => 'R'
    case DependsOnCol => 'D'
    case RequiredByCol => 'T'
  }

  /** The column header (`NodeColumnMV` name). */
  function Header(col: Column): string {
    match col
    case PathCol => "Path"
    case NodeNameCol => "Name"
    case UnitNameCol => "Name"
    case UnitAddrCol => "Address"
    case DepOrdinalCol => "Ordinal"
    case DeviceLabelCol => "Label"
    case NodeLabelsCol => "Labels"
    case CompatibleCol => "Compatible"
    case BindingCol => "Binding"
    case BindingDepthCol => "Binding Depth"
    case DescriptionCol => "Description"
    case VendorCol => "Vendor"
    case StatusCol => "Status"
    case AliasesCol => "Aliases"
    case AlsoKnownAsCol => "Also Known As"
    case OnBusCol => "On Bus"
    case BusesCol => "Buses"
    case BusCol => "Bus"
    case IrqsCol => "IRQs"
    case RegistersCol => "Registers"
    case RegisterRangesCol => "Registers"
    case DependsOnCol => "Depends-on"
    case RequiredByCol => "Required-by"
  }

  /** Each column has one key and each key one column. */
  lemma SpecTable(spec: char, col: Column)
    ensures ColumnOf(spec) == Some(col) <==> spec == SpecOf(col)
  {
  }

  /** The keys of the table are exactly `Specifiers`. */
  lemma SpecKeys(spec: char)
    ensures ColumnOf(spec).Some? <==> spec in Specifiers
  {
  }

  /** `DTShNodeFmt.is_valid()`: every character is a known specifier. */
  predicate IsValid(fmt: string) {
    forall k :: 0 <= k < |fmt| ==> fmt[k] in Specifiers
  }

  /** Why a format string was refused: its first unknown specifier. */
  datatype FmtError = InvalidSpecifier(spec: char)

  /** The message of the `DTShError` (`str()` of a `KeyError` keeps the quotes). */
  function Message(e: FmtError): string {
    "invalid format specifier: ''" + [e.spec] + "''"
  }

  /** `fmt[k]` is the first character of `fmt` that is not a specifier. */
  predicate FirstInvalid(fmt: string, k: int)
    requires 0 <= k < |fmt|
  {
    ColumnOf(fmt[k]).None? && forall j :: 0 <= j < k ==> ColumnOf(fmt[j]).Some?
  }

  /** `DTShNodeFmt.parse()`: the column of each specifier, in order. */
  function Parse(fmt: string): (r: Result<seq<Column>, FmtError>)
    ensures r.Ok? ==> |r.value| == |fmt| && forall k :: 0 <= k < |fmt| ==> ColumnOf(fmt[k]) == Some(r.value[k])
    ensures r.Err? ==> exists k :: 0 <= k < |fmt| && fmt[k] == r.error.spec && FirstInvalid(fmt, k)
  {
    if fmt == [] then Ok([])
    else
      match ColumnOf(fmt[0])
      case None => Err(InvalidSpecifier(fmt[0]))
      case Some(col) =>
        match Parse(fmt[1..])
        case Err(e) =>
          ghost var k :| 0 <= k < |fmt[1..]| && fmt[1..][k] == e.spec && FirstInvalid(fmt[1..], k);
          assert fmt[k + 1] == e.spec && FirstInvalid(fmt, k + 1);
          Err(e)
        case Ok(cols) => Ok([col] + cols)
  }

  /** `is_valid()` holds exactly when `parse()` succeeds. */
  lemma ParseValid(fmt: string)
    ensures Parse(fmt).Ok? <==> IsValid(fmt)
  {
    forall c: char
      ensures ColumnOf(c).Some? <==> c in Specifiers
    {
      SpecKeys(c);
    }
  }

  /** Parsing a word of specifiers written from columns gives those columns back. */
  lemma {:induction false} ParseSpecs(cols: seq<Column>)
    ensures Parse(Specs(cols)) == Ok(cols)
  {
    if cols != [] {
      ParseSpecs(cols[1..]);
      SpecTable(SpecOf(cols[0]), cols[0]);
      var w := Specs(cols);
      assert w[0] == SpecOf(cols[0]) && w[1..] == Specs(cols[1..]);
      assert [cols[0]] + cols[1..] == cols;
    }
  }

  /** The format string of a list of columns. */
  function Specs(cols: seq<Column>): (r: string)
    ensures |r| == |cols|
  {
    if cols == [] then [] else [SpecOf(cols[0])] + Specs(cols[1..])
  }

  // ---------------------------------------------------------------- completion

  /** The keys of `keys` that do not occur in `txt`, in order. */
  function Unused(keys: string, txt: string): (r: string)
    ensures forall c :: c in r <==> c in keys && c !in txt
    ensures multiset(r) <= multiset(keys)
  {
    if keys == [] then []
    else
      assert keys == [keys[0]] + keys[1..];
      (if keys[0] in txt then [] else [keys[0]]) + Unused(keys[1..], txt)
  }

  /** Case-insensitive order on one-character keys. */
  predicate LowerLeq(a: char, b: char) {
    PyStr.LowerChar(a) <= PyStr.LowerChar(b)
  }

  predicate SortedLower(s: string) {
    forall i, j :: 0 <= i < j < |s| ==> LowerLeq(s[i], s[j])
  }

  /** Insert `c` before the first key that sorts strictly after it. */
  function InsertLower(c: char, s: string): (r: string)
    ensures multiset(r) == multiset(s) + multiset{c}
  {
    if s == [] || PyStr.LowerChar(c) < PyStr.LowerChar(s[0]) then [c] + s
    else
      assert s == [s[0]] + s[1..];
      [s[0]] + InsertLower(c, s[1..])
  }

  /** `sorted(…, key=lambda x: x.lower())`: a stable insertion sort. */
  function SortLower(s: string): (r: string)
    ensures multiset(r) == multiset(s)
  {
    if s == [] then []
    else
      assert s == s[..|s| - 1] + [s[|s| - 1]];
      InsertLower(s[|s| - 1], SortLower(s[..|s| - 1]))
  }

  lemma {:induction false} InsertLowerSorted(c: char, s: string)
    requires SortedLower(s)
    ensures SortedLower(InsertLower(c, s))
  {
    if s == [] || PyStr.LowerChar(c) < PyStr.LowerChar(s[0]) {
    } else {
      InsertLowerSorted(c, s[1..]);
      var t := InsertLower(c, s[1..]);
      assert multiset(t) == multiset(s[1..]) + multiset{c};
      forall x | x in t
        ensures LowerLeq(s[0], x)
      {
        assert x in multiset(t);
        if x != c {
          assert x in multiset(s[1..]);
          var j :| 0 <= j < |s[1..]| && s[1..][j] == x;
          assert s[j + 1] == x;
        }
      }
      var r := [s[0]] + t;
      forall i, j | 0 <= i < j < |r|
        ensures LowerLeq(r[i], r[j])
      {
        if i == 0 {
          assert r[j] == t[j - 1];
        } else {
          assert r[i] == t[i - 1] && r[j] == t[j - 1];
        }
      }
    }
  }

  lemma {:induction false} SortLowerSorted(s: string)
    ensures SortedLower(SortLower(s))
  {
    if s != [] {
      SortLowerSorted(s[..|s| - 1]);
      InsertLowerSorted(s[|s| - 1], SortLower(s[..|s| - 1]));
    }
  }

  /** `DTShArgLongFmt.autocomp()`: the keys not yet used, sorted case-insensitively; none for an invalid format. */
  function Autocomp(txt: string): string {
    if !IsValid(txt) then [] else SortLower(Unused(Specifiers, txt))
  }

  /** Completion offers exactly the unused keys of a valid format, in case-insensitive order. */
  lemma AutocompSpec(txt: string)
    ensures SortedLower(Autocomp(txt))
    ensures forall c :: c in Autocomp(txt) <==> IsValid(txt) && c in Specifiers && c !in txt
  {
    if IsValid(txt) {
      SortedUnused(Specifiers, txt);
    }
  }

  lemma SortedUnused(keys: string, txt: string)
    ensures SortedLower(SortLower(Unused(keys, txt)))
    ensures forall c :: c in SortLower(Unused(keys, txt)) <==> c in keys && c !in txt
  {
    var u := Unused(keys, txt);
    SortLowerSorted(u);
    assert forall c :: c in SortLower(u) <==> c in multiset(u);
  }

  /** `DTShArgLongFmt`: the raw format string and the columns parsed from it. */
  class LongFmtArg {
    var raw: Option<string>
    var fmt: Option<seq<Column>>

    constructor()
      ensures raw.None? && fmt.None?
    {
      raw := None;
      fmt := None;
    }

    /** `reset()`. */
    method Reset()
      modifies this
      ensures raw.None? && fmt.None?
    {
      raw := None;
      fmt := None;
    }

    /** `parsed()`: a set format string must parse; on error the columns are left as they were. */
    method Parsed(value: Option<string>) returns (err: Option<FmtError>)
      modifies this
      ensures raw == value
      ensures !(value.Some? && value.value != "") ==> err.None? && fmt == old(fmt)
      ensures value.Some? && value.value != "" ==> match Parse(value.value)
        case Ok(cols) => err.None? && fmt == Some(cols) && |cols| == |value.value|
        case Err(e) => err == Some(e) && fmt == old(fmt)
    {
      raw := value;
      err := None;
      if value.Some? && value.value != "" {
        match Parse(value.value)
        case Ok(cols) => fmt := Some(cols);
        case Err(e) => err := Some(e);
      }
    }
  }

  // ---------------------------------------------------------------- command helpers

  /**
   * `DTShCommandLongFmt.sort()` is the sibling arrangement of the walk: the
   * sorter when set, else the reversed input when reverse is set, else the input.
   */
  lemma CommandSort(nodes: seq<Node>, sorter: Option<SortKey>, reverse: bool)
    ensures var r := Arrange(nodes, sorter, reverse);
      multiset(r) == multiset(nodes)
      && (sorter.Some? ==> r == SortSpec(sorter.value, nodes, reverse))
      && (sorter.None? && reverse ==> r == Reverse(nodes) && Reverse(r) == nodes)
      && (sorter.None? && !reverse ==> r == nodes)
  {
    if sorter.None? && reverse {
      ReverseTwice(nodes);
    }
  }

  lemma {:induction false} ReverseTwice<T>(s: seq<T>)
    ensures Reverse(Reverse(s)) == s
  {
    if s != [] {
      ReverseTwice(s[1..]);
      ReverseConcat(Reverse(s[1..]), [s[0]]);
      assert Reverse([s[0]]) == [s[0]];
    }
  }

  /** `DTShCommandLongFmt.prune()`: the nodes that are enabled or not filtered, in order. */
  function Prune(nodes: seq<Node>, enabledOnly: bool): (r: seq<Node>)
    ensures forall x :: x in r <==> x in nodes && (x.Enabled() || !enabledOnly)
    ensures !enabledOnly ==> r == nodes
    ensures enabledOnly ==> r == EnabledNodes(nodes)
  {
    var keep := (n: Node) => n.Enabled() || !enabledOnly;
    forall x ensures x in Select(keep, nodes) <==> x in nodes && keep(x) {
      SelectMember(keep, nodes, x);
    }
    if !enabledOnly then
      SelectAll(keep, nodes);
      Select(keep, nodes)
    else
      SelectSame(keep, (n: Node) => n.Enabled(), nodes);
      Select(keep, nodes)
  }

  lemma {:induction false} SelectAll(p: Node -> bool, nodes: seq<Node>)
    requires forall n :: p(n)
    ensures Select(p, nodes) == nodes
  {
    if nodes != [] {
      SelectAll(p, nodes[1..]);
      assert [nodes[0]] + nodes[1..] == nodes;
    }
  }

  lemma {:induction false} SelectSame(p: Node -> bool, q: Node -> bool, nodes: seq<Node>)
    requires forall n :: p(n) == q(n)
    ensures Select(p, nodes) == Select(q, nodes)
  {
    if nodes != [] {
      SelectSame(p, q, nodes[1..]);
    }
  }

  /** `get_sketch()`: a list view becomes multi-line when that preference is set. */
  function GetSketch(layout: ModelView.Layout, prefListMulti: bool, sorter: Option<SortKey>, reverse: bool): (r: ModelView.Sketch)
    ensures r.sorter == sorter && r.reverse == reverse
    ensures r.layout != layout <==> layout == ModelView.ListView && prefListMulti
    ensures r.layout != layout ==> r.layout == ModelView.ListMulti
  {
    if layout == ModelView.ListView && prefListMulti then ModelView.Sketch(ModelView.ListMulti, sorter, reverse)
    else ModelView.Sketch(layout, sorter, reverse)
  }

  /** A default format that is set, not empty and valid. */
  predicate UsableDefault(defaultFmt: Option<string>) {
    defaultFmt.Some? && defaultFmt.value != "" && Parse(defaultFmt.value).Ok?
  }

  /**
   * `get_longfmt()`: the parsed format when set and not empty, else the
   * default format when it parses to some columns, else the path column.
   * (An invalid default is reported on standard error, not modelled.)
   */
  function GetLongfmt(fmt: Option<seq<Column>>, defaultFmt: Option<string>): (r: seq<Column>)
    ensures |r| >= 1
    ensures fmt.Some? && fmt.value != [] ==> r == fmt.value
    ensures (fmt.None? || fmt.value == []) && UsableDefault(defaultFmt) ==> r == Parse(defaultFmt.value).value
    ensures (fmt.None? || fmt.value == []) && !UsableDefault(defaultFmt) ==> r == [PathCol]
  {
    var given := if fmt.Some? then fmt.value else [];
    var cols := if given == [] && defaultFmt.Some? && defaultFmt.value != "" && Parse(defaultFmt.value).Ok? then Parse(defaultFmt.value).value
      else given;
    if cols != [] then cols else [PathCol]
  }

  /** A valid default format gives one column per specifier when no format was parsed. */
  lemma GetLongfmtDefault(defaultFmt: string)
    requires defaultFmt != "" && IsValid(defaultFmt)
    ensures |GetLongfmt(None, Some(defaultFmt))| == |defaultFmt|
    ensures forall k :: 0 <= k < |defaultFmt| ==> SpecOf(GetLongfmt(None, Some(defaultFmt))[k]) == defaultFmt[k]
  {
    ParseValid(defaultFmt);
    var cols := Parse(defaultFmt).value;
    forall k | 0 <= k < |defaultFmt|
      ensures SpecOf(cols[k]) == defaultFmt[k]
    {
      SpecTable(defaultFmt[k], cols[k]);
    }
  }
}
