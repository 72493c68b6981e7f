/**
 * Devicetree nodes as immutable records (the `DTNode` facade without its
 * edtlib peer), their registers and interrupts, and the tree shape the
 * shell relies on: a child's path is its parent's path joined with its
 * name, and the root "/" is its own parent.
 */
module Nodes {
  import opened Wrappers
  import PyStr
  import DTPath

  /** Python's `sys.maxsize` on a 64-bit host. */
  const MaxSize: int := 0x7FFF_FFFF_FFFF_FFFF

  /** A register: edtlib may leave both the address and the size unset. */
  datatype Register = Register(addr: Option<int>, rawSize: Option<nat>) {
    /** The address, `sys.maxsize` when the devicetree gives none. */
    function Address(): int {
      addr.GetOr(MaxSize)
    }

    /** The size, 0 when the devicetree gives none. */
    function Size(): nat {
      rawSize.GetOr(0)
    }

    /** The last address the register covers. */
    function Tail(): int {
      if Size() > 0 then Address() + Size() - 1 else Address()
    }
  }

  /** A register spans `[Address, Tail]`: exactly `Size` addresses, or just its address when sizeless. */
  lemma RegisterSpan(reg: Register)
    ensures reg.rawSize.None? ==> reg.Size() == 0
    ensures reg.addr.None? ==> reg.Address() == MaxSize
    ensures reg.Tail() >= reg.Address()
    ensures reg.Size() > 0 ==> reg.Tail() - reg.Address() + 1 == reg.Size()
    ensures reg.Size() == 0 ==> reg.Tail() == reg.Address()
  {
  }

  /** An interrupt: its number and, when the controller defines one, its priority. */
  datatype Irq = Irq(number: int, priority: Option<int>)

  /** A device vendor: the compatible prefix and the manufacturer's name. */
  datatype Vendor = Vendor(prefix: string, name: string)

  /** The binding facts the shell core reads. */
  datatype Binding = Binding(
    compatible: Option<string>,
    description: Option<string>,
    cbDepth: int,
    onBus: Option<string>)
  {
    /** The first line of the description after leading white space, when the description is not empty. */
    function Headline(): Option<string> {
      match description
      case Some(d) => if d == "" then None else Some(PyStr.Split(PyStr.LStrip(d), '\n')[0])
      case None => None
    }
  }

  /** A devicetree node with the aspects the query engine looks at. */
  datatype Node = Node(
    path: string,
    name: string,
    status: string,
    unitAddr: Option<int>,
    aliases: seq<string>,
    chosen: seq<string>,
    labels: seq<string>,
    deviceLabel: Option<string>,
    compatibles: seq<string>,
    compatible: Option<string>,
    vendor: Option<Vendor>,
    binding: Option<Binding>,
    buses: seq<string>,
    interrupts: seq<Irq>,
    registers: seq<Register>,
    description: Option<string>,
    depOrdinal: int,
    children: seq<Node>)
  {
    /** A node is enabled when its status is "okay". */
    predicate Enabled() {
      status == "okay"
    }

    /** The node name without its unit address. */
    function UnitName(): string {
      PyStr.Split(name, '@')[0]
    }

    /** The bus the node appears on, as its binding says. */
    function OnBus(): Option<string> {
      match binding
      case Some(b) => b.onBus
      case None => None
    }
  }

  /**
   * The tree shape: every child is named by a node name and sits at its
   * parent's path joined with that name.
   */
  predicate WellFormed(n: Node)
    decreases n
  {
    DTPath.Rooted(n.path)
    && forall c :: c in n.children ==>
         DTPath.IsNodeName(c.name) && c.path == DTPath.JoinPath(n.path, c.name) && WellFormed(c)
  }

  /** A whole devicetree: well formed under the root "/". */
  predicate IsDevicetree(root: Node) {
    root.path == "/" && WellFormed(root)
  }

  /** The path of a node's parent; the root is its own parent. */
  function ParentPath(path: string): string {
    DTPath.Dirname(path)
  }

  /** In a well-formed tree, the parent path of every child is its parent's path, and its base name is its name. */
  lemma ParentOfChild(n: Node, c: Node)
    requires WellFormed(n) && c in n.children
    ensures ParentPath(c.path) == n.path
    ensures DTPath.Basename(c.path) == c.name
  {
    DTPath.DirnameBasenameChild(n.path, c.name);
  }

  /** In a well-formed tree, a child's path names are its parent's followed by its own name. */
  lemma NamesOfChild(n: Node, c: Node)
    requires WellFormed(n) && c in n.children
    ensures DTPath.Rooted(c.path)
    ensures DTPath.Split(c.path) == DTPath.Split(n.path) + [c.name]
  {
    DTPath.SplitChild(n.path, c.name);
  }

  /** The root is its own parent. */
  lemma RootIsOwnParent()
    ensures ParentPath("/") == "/"
  {
    DTPath.DirnameRoot();
  }

  /** `DTNode.get_child()`: the first child with this name, or `Err(name)` for the `KeyError`. */
  method GetChild(n: Node, name: string) returns (r: Result<Node, string>)
    ensures r.Ok? ==> r.value in n.children && r.value.name == name
    ensures r.Ok? ==> exists k :: 0 <= k < |n.children| && n.children[k] == r.value
                        && forall j :: 0 <= j < k ==> n.children[j].name != name
    ensures r.Err? <==> forall c :: c in n.children ==> c.name != name
    ensures r.Err? ==> r.error == name
  {
    var i := 0;
    while i < |n.children|
      invariant 0 <= i <= |n.children|
      invariant forall j :: 0 <= j < i ==> n.children[j].name != name
    {
      if n.children[i].name == name {
        return Ok(n.children[i]);
      }
      i := i + 1;
    }
    return Err(name);
  }

  /** Rooted paths above the root get strictly shorter towards it. */
  lemma DirnameShorter(path: string)
    requires DTPath.Rooted(path) && path != "/"
    ensures DTPath.Rooted(ParentPath(path)) && |ParentPath(path)| < |path|
  {
    var i := PyStr.RFind(path, '/') + 1;
    assert path[0] == '/';
    assert i >= 1;
    var head := path[..i];
    assert i < |path|;
    if !DTPath.AllSlashes(head) {
      var h := DTPath.RStripSlashes(head);
      assert h != [] by {
        var k :| 0 <= k < |head| && head[k] != '/';
        assert k < |h|;
      }
      assert h[0] == '/';
      assert h == path[..|h|];
    } else {
      assert path[1] != '/';
      assert i == 1;
    }
  }

  /**
   * `DTNode.rwalk()` as paths: the node, then each ancestor, ending at the
   * root, which is its own parent.
   */
  function RWalk(path: string): (r: seq<string>)
    requires DTPath.Rooted(path)
    ensures |r| >= 1 && r[0] == path
    decreases |path|
  {
    if path == "/" then [path]
    else
      DirnameShorter(path);
      [path] + RWalk(ParentPath(path))
  }

  /** One step back: from a node other than the root, to its parent. */
  lemma RWalkStep(path: string)
    requires DTPath.Rooted(path) && path != "/"
    ensures DTPath.Rooted(ParentPath(path))
    ensures RWalk(path) == [path] + RWalk(ParentPath(path))
  {
    DirnameShorter(path);
  }

  /** The last element of a non-empty sequence. */
  function Last<T>(s: seq<T>): T
    requires s != []
  {
    s[|s| - 1]
  }

  lemma LastCons<T>(x: T, s: seq<T>)
    requires s != []
    ensures Last([x] + s) == Last(s)
  {
  }

  /** Walking back always ends at the root. */
  lemma {:induction false} RWalkEndsAtRoot(path: string)
    requires DTPath.Rooted(path)
    ensures Last(RWalk(path)) == "/"
    decreases |path|
  {
    if path != "/" {
      var parent := ParentPath(path);
      RWalkStep(path);
      RWalkEndsAtRoot(parent);
      LastCons(path, RWalk(parent));
    }
  }

  /** Walking back from a child goes through its parent next. */
  lemma RWalkChild(n: Node, c: Node)
    requires WellFormed(n) && c in n.children
    ensures DTPath.Rooted(c.path)
    ensures RWalk(c.path) == [c.path] + RWalk(n.path)
  {
    DTPath.SplitChild(n.path, c.name);
    ParentOfChild(n, c);
  }
}
