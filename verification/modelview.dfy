/**
 * View factories of the rich front end (`DTModelView`, `NodeMV`,
 * `SketchMV`, the walkable and two-sided views), reduced to the text they
 * produce and the structure they lay out. Styles, links and Rich renderables
 * are not modelled: a view is its plain text.
 */
module ModelView {
  import opened Wrappers
  import opened Nodes
  import opened Sorting
  import Walking
  import PyStr
  import DTPath

  /** `SketchMV.Layout`: the rendering context. */
  datatype Layout = ListView | TreeView | TwoSided | ListMulti

  /** `SketchMV`: the layout, the sorter the nodes were ordered by, and the direction. */
  datatype Sketch = Sketch(layout: Layout, sorter: Option<SortKey>, reverse: bool)

  /** The user preferences the views read. */
  datatype Prefs = Prefs(sizesSI: bool, hexUpper: bool, listPlaceholder: string, treePlaceholder: string)

  // ---------------------------------------------------------------- sizes

  /** `SI_UNITS`: only the powers 0 to 3 of 1024 have a unit. */
  function SIUnit(k: nat): Option<string> {
    if k == 0 then Some("bytes")
    else if k == 1 then Some("kB")
    else if k == 2 then Some("MB")
    else if k == 3 then Some("GB")
    else None
  }

  /** `1024 ** k` */
  function Pow1024(k: nat): (r: nat)
    ensures r >= 1
  {
    if k == 0 then 1 else 1024 * Pow1024(k - 1)
  }

  /** `x >> (10 * k)`: `k` right shifts by 10 bits. */
  function Shr10(x: nat, k: nat): nat {
    if k == 0 then x else Shr10(x / 1024, k - 1)
  }

  /** The number of 10-bit right shifts that bring `size` below 1024. */
  function SIPower(size: nat): nat {
    if size < 1024 then 0 else 1 + SIPower(size / 1024)
  }

  lemma {:induction false} Shr10Snoc(x: nat, k: nat)
    ensures Shr10(x, k + 1) == Shr10(x, k) / 1024
  {
    if k > 0 {
      Shr10Snoc(x / 1024, k - 1);
    }
  }

  /** `size >> 10k` times the unit size is `size` less a remainder smaller than the unit size. */
  lemma {:induction false} Shr10Bounds(x: nat, k: nat)
    ensures Shr10(x, k) * Pow1024(k) <= x < (Shr10(x, k) + 1) * Pow1024(k)
  {
    if k > 0 {
      var y := x / 1024;
      Shr10Bounds(y, k - 1);
      ScaleBounds(x, y, Shr10(y, k - 1), Pow1024(k - 1));
    }
  }

  /** If `q*p <= y < (q+1)*p` and `y = x / 1024`, then `q*(1024p) <= x < (q+1)*(1024p)`. */
  lemma ScaleBounds(x: nat, y: nat, q: nat, p: nat)
    requires y == x / 1024 && q * p <= y < (q + 1) * p
    ensures q * (1024 * p) <= x < (q + 1) * (1024 * p)
  {
    assert 1024 * y <= x < 1024 * y + 1024;
    assert y + 1 <= (q + 1) * p;
    MulLeq(q * p, y, 1024);
    MulLeq(y + 1, (q + 1) * p, 1024);
    assert q * (1024 * p) == (q * p) * 1024;
    assert (q + 1) * (1024 * p) == ((q + 1) * p) * 1024;
  }

  lemma MulLeq(a: nat, b: nat, c: nat)
    requires a <= b
    ensures a * c <= b * c
  {
  }

  /** The SI power is the exponent of the largest power of 1024 not above the size. */
  lemma {:induction false} SIPowerRange(size: nat)
    requires size >= 1
    ensures Pow1024(SIPower(size)) <= size < 1024 * Pow1024(SIPower(size))
    ensures 1 <= Shr10(size, SIPower(size)) < 1024
  {
    if size >= 1024 {
      SIPowerRange(size / 1024);
    }
  }

  /** Sizes of 1024⁴ bytes and more have no unit. */
  lemma SIPowerUnit(size: nat)
    ensures SIUnit(SIPower(size)).Some? <==> size < Pow1024(4)
  {
    if size >= 1 {
      SIPowerRange(size);
      var k := SIPower(size);
      if k >= 4 {
        PowMonotonic(4, k);
      } else {
        PowMonotonic(k + 1, 4);
      }
    }
  }

  lemma {:induction false} PowMonotonic(a: nat, b: nat)
    requires a <= b
    ensures Pow1024(a) <= Pow1024(b)
    decreases b
  {
    if a < b {
      PowMonotonic(a, b - 1);
    }
  }

  /**
   * A size as it is shown: a text, or (fractional SI sizes, written as a
   * float) the quotient and remainder of the division by the unit size, or
   * the failed unit lookup for sizes of 1024⁴ bytes and more.
   */
  datatype SizeView =
    | SizeText(text: string)
    | SizeFraction(quotient: nat, remainder: nat, unitSize: nat, unit: string)
    | NoUnit(power: nat)

  /** `hex(n)`, upper case when that preference is set. */
  function MkHex(n: int, prefs: Prefs): string {
    if prefs.hexUpper then PyStr.Upper(PyStr.Hex(n)) else PyStr.Hex(n)
  }

  /** `mk_size()` as a function of its inputs. */
  function SizeSpec(size: nat, prefs: Prefs): SizeView {
    if !prefs.sizesSI then SizeText(MkHex(size, prefs))
    else
      var k := SIPower(size);
      match SIUnit(k)
      case None => NoUnit(k)
      case Some(unit) =>
        var q := Shr10(size, k);
        Shr10Bounds(size, k);
        var remainder := size - q * Pow1024(k);
        if remainder != 0 then SizeFraction(q, remainder, Pow1024(k), unit)
        else SizeText(PyStr.IntStr(q) + " " + unit)
  }

  /** What an SI size view says: the quotient times the unit size plus the remainder is the size. */
  lemma SizeSpecExact(size: nat, prefs: Prefs)
    requires prefs.sizesSI && size < Pow1024(4)
    ensures var k := SIPower(size);
      match SizeSpec(size, prefs)
      case SizeText(t) => t == PyStr.IntStr(Shr10(size, k)) + " " + SIUnit(k).value
        && Shr10(size, k) * Pow1024(k) == size
      case SizeFraction(q, rem, unitSize, _) => unitSize == Pow1024(k)
        && q * unitSize + rem == size && 0 < rem < unitSize
      case NoUnit(_) => false
  {
    SIPowerUnit(size);
    var k := SIPower(size);
    Shr10Bounds(size, k);
  }

  /** `mk_size()`: count the 10-bit shifts that bring the size below 1024, then format. */
  method MkSize(size: nat, prefs: Prefs) returns (r: SizeView)
    ensures r == SizeSpec(size, prefs)
  {
    if !prefs.sizesSI {
      return SizeText(MkHex(size, prefs));
    }
    var left := size;
    var powOfK := 0;
    while left >= 1024
      invariant left == Shr10(size, powOfK)
      invariant SIPower(size) == powOfK + SIPower(left)
      decreases left
    {
      Shr10Snoc(size, powOfK);
      left := left / 1024;
      powOfK := powOfK + 1;
    }
    var unit := SIUnit(powOfK);
    if unit.None? {
      return NoUnit(powOfK);
    }
    var unitSize := Pow1024(powOfK);
    var quotient := Shr10(size, powOfK);
    Shr10Bounds(size, powOfK);
    var remainder := size - quotient * unitSize;
    if remainder != 0 {
      r := SizeFraction(quotient, remainder, unitSize, unit.value);
    } else {
      r := SizeText(PyStr.IntStr(quotient) + " " + unit.value);
    }
  }

  // ---------------------------------------------------------------- paths and registers

  /** A path name as shown: the branch (dirname with its separator) and the node name. */
  datatype PathView = PathView(branch: Option<string>, node: string)

  function PathText(v: PathView): string {
    match v.branch
    case None => v.node
    case Some(b) => b + v.node
  }

  /** `mk_path_name()`: the root as "/" alone, any other path as its branch and its base name. */
  function MkPathName(path: string): (r: Result<PathView, string>)
    ensures r.Err? <==> DTPath.CheckPathName(path).Err?
    ensures path == "/" ==> r == Ok(PathView(None, "/"))
  {
    match DTPath.CheckPathName(path)
    case Err(e) => Err(e)
    case Ok(_) =>
      var dirname := DTPath.Dirname(path);
      var basename := DTPath.Basename(path);
      if basename != "" then
        Ok(PathView(Some(if dirname != "/" then dirname + "/" else dirname), basename))
      else
        if path == "/" then DTPath.DirnameRoot(); Ok(PathView(None, "/"))
        else Ok(PathView(None, "/"))
  }

  /** A rooted path other than the root is its parent path joined with its last name. */
  lemma RootedParent(path: string) returns (parent: string, name: string)
    requires DTPath.Rooted(path) && path != "/"
    ensures DTPath.Rooted(parent) && DTPath.IsNodeName(name)
    ensures path == DTPath.JoinPath(parent, name)
  {
    var i := PyStr.RFind(path, '/');
    assert path[0] == '/';
    name := path[i + 1..];
    assert '/' !in name by {
      assert forall k :: 0 <= k < |name| ==> name[k] == path[i + 1 + k];
    }
    if i == 0 {
      parent := "/";
      assert path == "/" + name;
    } else {
      parent := path[..i];
      assert parent[|parent| - 1] == path[i - 1];
      assert forall k :: 0 <= k < |parent| ==> parent[k] == path[k];
      assert path == parent + "/" + name;
    }
  }

  /** Every valid path name is shown as a branch and a node name that reassemble it. */
  lemma MkPathNameText(path: string)
    requires DTPath.Rooted(path) && '.' !in path
    ensures MkPathName(path).Ok? && PathText(MkPathName(path).value) == path
  {
    if path != "/" {
      var parent, name := RootedParent(path);
      DTPath.DirnameBasenameChild(parent, name);
      assert DTPath.Basename(path) == name && DTPath.Dirname(path) == parent;
    }
  }

  /** A register as shown: its address and, when its size is not zero, its size. */
  datatype RegisterView = RegisterView(addr: string, size: Option<SizeView>)

  /** `mk_register()`: the size is shown (in parentheses) only when it is not zero. */
  function MkRegister(reg: Register, prefs: Prefs): (r: RegisterView)
    ensures r.addr == MkHex(reg.Address(), prefs)
    ensures r.size.Some? <==> reg.Size() != 0
    ensures r.size.Some? ==> r.size.value == SizeSpec(reg.Size(), prefs)
  {
    RegisterView(MkHex(reg.Address(), prefs), if reg.Size() != 0 then Some(SizeSpec(reg.Size(), prefs)) else None)
  }

  /** The text of a register whose size view is a text: "addr (size)", or the address alone. */
  function RegisterText(v: RegisterView): Option<string> {
    match v.size
    case None => Some(v.addr)
    case Some(SizeText(t)) => Some(v.addr + " (" + t + ")")
    case Some(_) => None
  }

  // ---------------------------------------------------------------- node views

  /** `SketchMV.mk_placeholder()`: the list or tree placeholder for the layout, none when empty. */
  function MkPlaceholder(layout: Layout, prefs: Prefs): (r: Option<string>)
    ensures r.Some? ==> r.value != ""
  {
    var placeholder := match layout
      case ListView => prefs.listPlaceholder
      case TreeView => prefs.treePlaceholder
      case TwoSided => prefs.treePlaceholder
      case ListMulti => prefs.listPlaceholder;
    if placeholder != "" then Some(placeholder) else None
  }

  /** What `mk_view()` makes: nothing, one text, or a grid with one row per text. */
  datatype View = NoView | Single(text: string) | Grid(rows: seq<string>)

  /** The texts a view shows, top to bottom. */
  function Shown(v: View): seq<string> {
    match v
    case NoView => []
    case Single(t) => [t]
    case Grid(rows) => rows
  }

  /** `NodeMV.mk_view()` on the texts of an aspect. */
  function MkView(texts: seq<string>, placeholder: Option<string>): (r: View)
    ensures texts == [] && placeholder.None? ==> r == NoView
    ensures |texts| == 1 ==> r == Single(texts[0])
    ensures |texts| >= 2 ==> r.Grid?
  {
    var tvs := if texts == [] && placeholder.Some? then [placeholder.value] else texts;
    if tvs == [] then NoView
    else if |tvs| == 1 then Single(tvs[0])
    else Grid(tvs)
  }

  /** A view shows every text of the aspect, in order, or else the placeholder alone. */
  lemma MkViewShows(texts: seq<string>, placeholder: Option<string>)
    ensures Shown(MkView(texts, placeholder))
         == if texts != [] then texts else if placeholder.Some? then [placeholder.value] else []
  {
  }

  // ---------------------------------------------------------------- in-cell label sorting

  /** Insert `s` before the first string above it. */
  function InsertStr(s: string, ss: seq<string>): (r: seq<string>)
    ensures |r| == |ss| + 1
    ensures multiset(r) == multiset(ss) + multiset{s}
  {
    if ss == [] || !StrLeq(ss[0], s) then [s] + ss
    else
      assert ss == [ss[0]] + ss[1..];
      [ss[0]] + InsertStr(s, ss[1..])
  }

  /** `sorted()` of strings. */
  function SortStrs(ss: seq<string>): (r: seq<string>)
    ensures |r| == |ss|
    ensures multiset(r) == multiset(ss)
  {
    if ss == [] then []
    else
      assert ss == ss[..|ss| - 1] + [ss[|ss| - 1]];
      InsertStr(ss[|ss| - 1], SortStrs(ss[..|ss| - 1]))
  }

  predicate StrsAscending(ss: seq<string>) {
    forall i, j :: 0 <= i < j < |ss| ==> StrLeq(ss[i], ss[j])
  }

  lemma {:induction false} InsertStrSorted(s: string, ss: seq<string>)
    requires StrsAscending(ss)
    ensures StrsAscending(InsertStr(s, ss))
  {
    if ss == [] {
    } else if !StrLeq(ss[0], s) {
      StrLeqTotal(ss[0], s);
      var r := [s] + ss;
      forall i, j | 0 <= i < j < |r|
        ensures StrLeq(r[i], r[j])
      {
        if i == 0 && j > 1 {
          assert StrLeq(ss[0], ss[j - 1]);
          StrLeqTrans(s, ss[0], ss[j - 1]);
        }
      }
    } else {
      InsertStrSorted(s, ss[1..]);
      var t := InsertStr(s, ss[1..]);
      forall x | x in t
        ensures StrLeq(ss[0], x)
      {
        assert x in multiset(t);
        if x != s {
          assert x in multiset(ss[1..]);
          var j :| 0 <= j < |ss[1..]| && ss[1..][j] == x;
          assert ss[j + 1] == x;
        }
      }
      var r := [ss[0]] + t;
      forall i, j | 0 <= i < j < |r|
        ensures StrLeq(r[i], r[j])
      {
        if i == 0 {
          assert r[j] == t[j - 1];
        } else {
          assert r[i] == t[i - 1] && r[j] == t[j - 1];
        }
      }
    }
  }

  lemma {:induction false} SortStrsSorted(ss: seq<string>)
    ensures StrsAscending(SortStrs(ss))
  {
    if ss != [] {
      SortStrsSorted(ss[..|ss| - 1]);
      InsertStrSorted(ss[|ss| - 1], SortStrs(ss[..|ss| - 1]));
    }
  }

  /** The labels in cell order: sorted when the nodes are sorted by label, descending when reversed. */
  function CellLabels(labels: seq<string>, sketch: Sketch): seq<string> {
    if sketch.sorter == Some(NodeLabelsKey) then
      if sketch.reverse then Reverse(SortStrs(labels)) else SortStrs(labels)
    else labels
  }

  /** In-cell sorting only reorders the labels, and only for the label sorter. */
  lemma CellLabelsOrder(labels: seq<string>, sketch: Sketch)
    ensures multiset(CellLabels(labels, sketch)) == multiset(labels)
    ensures sketch.sorter != Some(NodeLabelsKey) ==> CellLabels(labels, sketch) == labels
    ensures sketch.sorter == Some(NodeLabelsKey) && !sketch.reverse ==> StrsAscending(CellLabels(labels, sketch))
    ensures sketch.sorter == Some(NodeLabelsKey) && sketch.reverse ==>
      forall i, j :: 0 <= i < j < |labels| ==> StrLeq(CellLabels(labels, sketch)[j], CellLabels(labels, sketch)[i])
  {
    SortStrsSorted(labels);
    ReverseMultiset(SortStrs(labels));
  }

  /** `NodeLabelsNodeMV.mk_text()`: one text per label in a multi-line list, else one comma-separated text. */
  function LabelTexts(labels: seq<string>, sketch: Sketch): (r: seq<string>)
    ensures labels == [] ==> r == []
    ensures labels != [] && sketch.layout == ListMulti ==> r == CellLabels(labels, sketch)
    ensures labels != [] && sketch.layout != ListMulti ==> |r| == 1
  {
    if labels == [] then []
    else if sketch.layout == ListMulti then CellLabels(labels, sketch)
    else [PyStr.JoinStr(CellLabels(labels, sketch), ", ")]
  }

  // ---------------------------------------------------------------- walk layouts

  /** The paths of the nodes of a walk. */
  function PathSet(w: seq<Node>): set<string> {
    if w == [] then {} else PathSet(w[..|w| - 1]) + {w[|w| - 1].path}
  }

  /**
   * The branches of the tree a walk lays out (`branch2tree`), by path: the
   * labels added under each walked node, in order. A node whose parent was
   * not walked before it is not hung anywhere.
   */
  function Branches(w: seq<Node>): map<string, seq<string>> {
    if w == [] then map[]
    else Hang(Branches(w[..|w| - 1]), w[|w| - 1].path, ParentPath(w[|w| - 1].path))
  }

  /** Add the label `path` under the branch `parent`, and open a branch for `path`. */
  function Hang(m: map<string, seq<string>>, path: string, parent: string): map<string, seq<string>> {
    if parent in m then m[parent := m[parent] + [path]][path := []] else m[path := []]
  }

  /** The paths of the nodes after the first one whose parent path is `p`, in walk order. */
  function ChildPaths(w: seq<Node>, p: string): seq<string> {
    if |w| <= 1 then []
    else ChildPaths(w[..|w| - 1], p) + (if ParentPath(w[|w| - 1].path) == p then [w[|w| - 1].path] else [])
  }

  predicate DistinctPaths(w: seq<Node>) {
    forall i, j :: 0 <= i < j < |w| ==> w[i].path != w[j].path
  }

  lemma {:induction false} PathSetMember(w: seq<Node>, p: string)
    ensures p in PathSet(w) <==> exists j :: 0 <= j < |w| && w[j].path == p
  {
    if w != [] {
      PathSetMember(w[..|w| - 1], p);
      if p in PathSet(w[..|w| - 1]) {
        var j :| 0 <= j < |w| - 1 && w[..|w| - 1][j].path == p;
        assert w[j].path == p;
      }
      if exists j :: 0 <= j < |w| && w[j].path == p {
        var j :| 0 <= j < |w| && w[j].path == p;
        if j < |w| - 1 {
          assert w[..|w| - 1][j].path == p;
        }
      }
    }
  }

  /** Every walked node, and nothing else, is a branch of the tree. */
  lemma {:induction false} BranchesKeys(w: seq<Node>)
    ensures Branches(w).Keys == PathSet(w)
  {
    if w != [] {
      BranchesKeys(w[..|w| - 1]);
    }
  }

  /** A walk's prefix still has every node after its parent. */
  lemma AfterParentPrefix(w: seq<Node>, i: nat)
    requires Walking.AfterParent(w) && i <= |w|
    ensures Walking.AfterParent(w[..i])
  {
    forall k | 0 < k < i
      ensures Walking.ParentBefore(w[..i], k)
    {
      assert Walking.ParentBefore(w, k);
      var j :| 0 <= j < k && w[j].path == ParentPath(w[k].path);
      assert w[..i][j].path == ParentPath(w[..i][k].path);
    }
  }

  /** No node of `w` has a parent path that is not walked. */
  lemma NoChildOfUnwalked(w: seq<Node>, p: string)
    requires Walking.AfterParent(w) && p !in PathSet(w)
    ensures ChildPaths(w, p) == []
    decreases |w|
  {
    if |w| > 1 {
      AfterParentPrefix(w, |w| - 1);
      PathSetMember(w[..|w| - 1], p);
      PathSetMember(w, p);
      NoChildOfUnwalked(w[..|w| - 1], p);
      assert Walking.ParentBefore(w, |w| - 1);
    }
  }

  /**
   * In a walk with parents first and distinct paths, the branch of each
   * walked node holds exactly the paths of its children, in walk order.
   */
  lemma {:induction false} BranchesChildren(w: seq<Node>, p: string)
    requires Walking.AfterParent(w) && DistinctPaths(w) && p in PathSet(w)
    ensures p in Branches(w) && Branches(w)[p] == ChildPaths(w, p)
  {
    BranchesKeys(w);
    if |w| == 1 {
      assert w[..0] == [];
    } else {
      var u := w[..|w| - 1];
      var n := w[|w| - 1];
      LastNode(w);
      var parent := ParentPath(n.path);
      assert ChildPaths(w, p) == ChildPaths(u, p) + (if parent == p then [n.path] else []);
      if p == n.path {
        NoChildOfUnwalked(u, p);
        BranchesKeys(u);
        assert parent != p;
      } else {
        assert p in PathSet(u);
        BranchesChildren(u, p);
      }
    }
  }

  /** The last node of a walk is new, and its parent was walked before it. */
  lemma LastNode(w: seq<Node>)
    requires Walking.AfterParent(w) && DistinctPaths(w) && |w| >= 2
    ensures var u := w[..|w| - 1]; var n := w[|w| - 1];
      Walking.AfterParent(u) && DistinctPaths(u)
      && ParentPath(n.path) in Branches(u) && n.path !in PathSet(u)
      && Branches(w) == Hang(Branches(u), n.path, ParentPath(n.path))
  {
    var u := w[..|w| - 1];
    var n := w[|w| - 1];
    BranchesStep(w, |w| - 1);
    assert w[..|w|] == w;
    AfterParentPrefix(w, |w| - 1);
    PathSetMember(u, n.path);
  }

  /** The tree of a one-node walk is its anchor alone. */
  lemma BranchesRoot(n: Node)
    ensures Branches([n]) == map[n.path := []]
  {
    assert [n][..0] == [];
  }

  /** One step of the layout: the parent of the next node is already a branch. */
  lemma BranchesStep(w: seq<Node>, i: nat)
    requires Walking.AfterParent(w) && 1 <= i < |w|
    ensures ParentPath(w[i].path) in Branches(w[..i])
    ensures w[..i + 1] == w[..i] + [w[i]]
    ensures Branches(w[..i + 1]) == Hang(Branches(w[..i]), w[i].path, ParentPath(w[i].path))
  {
    ParentWalked(w, i);
    BranchesKeys(w[..i]);
    BranchesSnoc(w, i);
  }

  /** The parent of a node after the first was walked before it. */
  lemma ParentWalked(w: seq<Node>, i: nat)
    requires Walking.AfterParent(w) && 1 <= i < |w|
    ensures ParentPath(w[i].path) in PathSet(w[..i])
  {
    var parent := ParentPath(w[i].path);
    assert Walking.ParentBefore(w, i);
    var j :| 0 <= j < i && w[j].path == parent;
    assert w[..i][j].path == parent;
    PathSetMember(w[..i], parent);
  }

  /** Walking one more node hangs it under its parent. */
  lemma BranchesSnoc(w: seq<Node>, i: nat)
    requires i < |w|
    ensures w[..i + 1] == w[..i] + [w[i]]
    ensures Branches(w[..i + 1]) == Hang(Branches(w[..i]), w[i].path, ParentPath(w[i].path))
  {
    assert w[..i + 1] == w[..i] + [w[i]];
    assert (w[..i] + [w[i]])[..i] == w[..i];
  }

  /** `ViewDTWalkableMV`: the rich tree, as its anchor and the branches under each node. */
  class WalkableView {
    var anchor: Option<string>
    var branches: map<string, seq<string>>

    constructor()
      ensures anchor == None && branches == map[]
    {
      anchor := None;
      branches := map[];
    }

    /**
     * `walk_layout()`: anchor the tree at the first node, then hang every
     * other node under its parent's branch; yields the walk.
     */
    method WalkLayout(walk: seq<Node>) returns (yielded: seq<Node>)
      requires Walking.AfterParent(walk)
      modifies this
      ensures yielded == walk
      ensures walk == [] ==> anchor == old(anchor) && branches == old(branches)
      ensures walk != [] ==> anchor == Some(walk[0].path) && branches == Branches(walk)
    {
      if walk == [] {
        return [];
      }
      var root := walk[0];
      var branch2tree: map<string, seq<string>> := map[root.path := []];
      assert walk[..1] == [root];
      BranchesRoot(root);
      yielded := [root];
      var i := 1;
      while i < |walk|
        invariant 1 <= i <= |walk|
        invariant yielded == walk[..i]
        invariant branch2tree == Branches(walk[..i])
      {
        var node := walk[i];
        BranchesStep(walk, i);
        var parent := ParentPath(node.path);
        var anchor := branch2tree[parent];
        branch2tree := branch2tree[parent := anchor + [node.path]][node.path := []];
        yielded := yielded + [node];
        i := i + 1;
      }
      assert walk[..|walk|] == walk;
      anchor := Some(root.path);
      branches := branch2tree;
    }
  }

  /**
   * `ViewNodeTwoSided.do_layout()`: a fresh tree at the left, and at the
   * right one list row per node the tree yields, appended in sync.
   */
  method TwoSidedLayout(walk: seq<Node>) returns (left: WalkableView, rows: seq<Node>)
    requires Walking.AfterParent(walk)
    ensures fresh(left)
    ensures rows == walk
    ensures walk == [] ==> left.anchor == None && left.branches == map[]
    ensures walk != [] ==> left.anchor == Some(walk[0].path) && left.branches == Branches(walk)
  {
    left := new WalkableView();
    var yielded := left.WalkLayout(walk);
    rows := [];
    var k := 0;
    while k < |yielded|
      invariant 0 <= k <= |yielded|
      invariant rows == yielded[..k]
    {
      rows := rows + [yielded[k]];
      k := k + 1;
    }
    assert yielded[..|yielded|] == yielded;
  }

  /** The left tree and the right list show the same nodes. */
  lemma TwoSidedRows(walk: seq<Node>)
    requires walk != []
    ensures Branches(walk).Keys == PathSet(walk)
    ensures walk[0].path in Branches(walk)
  {
    BranchesKeys(walk);
    PathSetMember(walk, walk[0].path);
  }
}
