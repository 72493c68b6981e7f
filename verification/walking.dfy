/**
 * Walking devicetree branches (`DTNode.walk`, `find` and the comb of
 * `DTWalkableComb`): a depth-first pre-order walk in which siblings may be
 * sorted or reversed, disabled branches may be pruned and the depth may be
 * limited.
 */
module Walking {
  import opened Wrappers
  import opened Nodes
  import opened Sorting
  import DTPath

  /** The enabled nodes, in order (`prune()` with `enabled_only`). */
  function EnabledNodes(nodes: seq<Node>): (r: seq<Node>)
    ensures forall x :: x in r <==> x in nodes && x.Enabled()
    ensures |r| <= |nodes|
  {
    var p := (n: Node) => n.Enabled();
    forall x ensures x in Select(p, nodes) <==> x in nodes && x.Enabled() {
      SelectMember(p, nodes, x);
    }
    Select(p, nodes)
  }

  /**
   * Sibling ordering: by the sorter when one is given, else reversed DTS
   * order when `reverse` is set, else DTS order.
   */
  function Arrange(nodes: seq<Node>, orderBy: Option<SortKey>, reverse: bool): (r: seq<Node>)
    ensures multiset(r) == multiset(nodes)
  {
    match orderBy
    case Some(key) =>
      SortPermutes(key, nodes, reverse);
      SortSpec(key, nodes, reverse)
    case None =>
      ReverseMultiset(nodes);
      if reverse then Reverse(nodes) else nodes
  }

  /** The parameters of a walk. */
  datatype WalkOpts = WalkOpts(orderBy: Option<SortKey>, reverse: bool, enabledOnly: bool, fixedDepth: int)

  /** The children a walk visits under `n`, in visiting order. */
  function Children(n: Node, o: WalkOpts): (r: seq<Node>)
    ensures forall c :: c in r ==> c in n.children
  {
    var cs := if o.enabledOnly then EnabledNodes(n.children) else n.children;
    var r := Arrange(cs, o.orderBy, o.reverse);
    assert forall c :: c in r ==> c in multiset(cs);
    r
  }

  /** `DTNode._walk()`: the node, then the walks of its children. */
  function Walk(n: Node, o: WalkOpts, atDepth: int): (r: seq<Node>)
    ensures r == [] <==> o.enabledOnly && !n.Enabled()
    ensures r != [] ==> r[0] == n
    decreases n, 1, 0
  {
    if o.enabledOnly && !n.Enabled() then []
    else if o.fixedDepth > 0 && atDepth == o.fixedDepth then [n]
    else [n] + WalkAll(n, Children(n, o), o, if o.fixedDepth > 0 then atDepth + 1 else atDepth)
  }

  /** The walks of some children of `parent`, one after the other. */
  function WalkAll(parent: Node, cs: seq<Node>, o: WalkOpts, atDepth: int): seq<Node>
    requires forall c :: c in cs ==> c in parent.children
    decreases parent, 0, |cs|
  {
    if cs == [] then []
    else
      assert cs[0] in parent.children;
      Walk(cs[0], o, atDepth) + WalkAll(parent, cs[1..], o, atDepth)
  }

  lemma {:induction false} WalkAllConcat(parent: Node, a: seq<Node>, b: seq<Node>, o: WalkOpts, atDepth: int)
    requires forall c :: c in a + b ==> c in parent.children
    ensures WalkAll(parent, a + b, o, atDepth) == WalkAll(parent, a, o, atDepth) + WalkAll(parent, b, o, atDepth)
  {
    if a != [] {
      assert (a + b)[0] == a[0] && (a + b)[1..] == a[1..] + b;
      WalkAllConcat(parent, a[1..], b, o, atDepth);
    } else {
      assert a + b == b;
    }
  }

  /** With `enabled_only`, only enabled nodes are yielded: a disabled node hides its whole branch. */
  lemma {:induction false} WalkEnabled(n: Node, o: WalkOpts, atDepth: int)
    requires o.enabledOnly
    ensures forall m :: m in Walk(n, o, atDepth) ==> m.Enabled()
    decreases n, 1, 0
  {
    if n.Enabled() && !(o.fixedDepth > 0 && atDepth == o.fixedDepth) {
      WalkAllEnabled(n, Children(n, o), o, if o.fixedDepth > 0 then atDepth + 1 else atDepth);
    }
  }

  lemma {:induction false} WalkAllEnabled(parent: Node, cs: seq<Node>, o: WalkOpts, atDepth: int)
    requires o.enabledOnly
    requires forall c :: c in cs ==> c in parent.children
    ensures forall m :: m in WalkAll(parent, cs, o, atDepth) ==> m.Enabled()
    decreases parent, 0, |cs|
  {
    if cs != [] {
      assert cs[0] in cs;
      WalkEnabled(cs[0], o, atDepth);
      WalkAllEnabled(parent, cs[1..], o, atDepth);
    }
  }

  /** The depth of a node path: the number of names below the root. */
  function Depth(path: string): int {
    |DTPath.Split(path)| - 1
  }

  lemma ChildDepth(n: Node, c: Node)
    requires WellFormed(n) && c in n.children
    ensures WellFormed(c) && Depth(c.path) == Depth(n.path) + 1
  {
    NamesOfChild(n, c);
  }

  /** `m` lies in the branch under `n`, at most `d` levels below it. */
  predicate WithinLevels(n: Node, m: Node, d: int)
    decreases n
  {
    m == n || (d > 0 && exists c :: c in n.children && WithinLevels(c, m, d - 1))
  }

  /** With `fixed_depth` d > 0, the walk goes no more than d levels below its start. */
  lemma {:induction false} WalkLevels(n: Node, o: WalkOpts, atDepth: int)
    requires o.fixedDepth > 0 && 0 <= atDepth <= o.fixedDepth
    ensures forall m :: m in Walk(n, o, atDepth) ==> WithinLevels(n, m, o.fixedDepth - atDepth)
    decreases n, 1, 0
  {
    if !(o.enabledOnly && !n.Enabled()) && atDepth != o.fixedDepth {
      var rest := WalkAll(n, Children(n, o), o, atDepth + 1);
      assert Walk(n, o, atDepth) == [n] + rest;
      WalkAllLevels(n, Children(n, o), o, atDepth + 1);
    }
  }

  lemma {:induction false} WalkAllLevels(parent: Node, cs: seq<Node>, o: WalkOpts, atDepth: int)
    requires o.fixedDepth > 0 && 1 <= atDepth <= o.fixedDepth
    requires forall c :: c in cs ==> c in parent.children
    ensures forall m :: m in WalkAll(parent, cs, o, atDepth) ==> WithinLevels(parent, m, o.fixedDepth - atDepth + 1)
    decreases parent, 0, |cs|
  {
    if cs != [] {
      assert cs[0] in parent.children;
      WalkLevels(cs[0], o, atDepth);
      WalkAllLevels(parent, cs[1..], o, atDepth);
    }
  }

  /** Levels below a node are path depths below it. */
  lemma {:induction false} LevelsDepth(n: Node, m: Node, d: int)
    requires WellFormed(n) && WithinLevels(n, m, d) && d >= 0
    ensures Depth(m.path) <= Depth(n.path) + d
    decreases n
  {
    if m != n {
      var c :| c in n.children && WithinLevels(c, m, d - 1);
      ChildDepth(n, c);
      LevelsDepth(c, m, d - 1);
    }
  }

  /** With `fixed_depth` d > 0, no yielded node is more than d levels below the start. */
  lemma WalkDepth(n: Node, o: WalkOpts, atDepth: int)
    requires WellFormed(n) && o.fixedDepth > 0 && 0 <= atDepth <= o.fixedDepth
    ensures forall m :: m in Walk(n, o, atDepth) ==> Depth(m.path) <= Depth(n.path) + o.fixedDepth - atDepth
  {
    WalkLevels(n, o, atDepth);
    forall m | m in Walk(n, o, atDepth)
      ensures Depth(m.path) <= Depth(n.path) + o.fixedDepth - atDepth
    {
      LevelsDepth(n, m, o.fixedDepth - atDepth);
    }
  }

  /**
   * Every node of `w` either is a child of the node at `top` or comes after
   * its parent in `w`.
   */
  predicate ParentsFirst(w: seq<Node>, top: string) {
    forall i :: 0 <= i < |w| ==> ParentPath(w[i].path) == top || ParentBefore(w, i)
  }

  /** The parent of the `i`-th node of `w` comes before it in `w`. */
  predicate ParentBefore(w: seq<Node>, i: int)
    requires 0 <= i < |w|
  {
    exists j :: 0 <= j < i && w[j].path == ParentPath(w[i].path)
  }

  lemma ParentsFirstConcat(a: seq<Node>, b: seq<Node>, top: string)
    requires ParentsFirst(a, top) && ParentsFirst(b, top)
    ensures ParentsFirst(a + b, top)
  {
    var w := a + b;
    forall i | 0 <= i < |w| && ParentPath(w[i].path) != top
      ensures ParentBefore(w, i)
    {
      if i < |a| {
        assert w[i] == a[i];
        var j :| 0 <= j < i && a[j].path == ParentPath(a[i].path);
        assert w[j] == a[j];
      } else {
        assert w[i] == b[i - |a|];
        var j :| 0 <= j < i - |a| && b[j].path == ParentPath(b[i - |a|].path);
        assert w[j + |a|] == b[j];
      }
    }
  }

  lemma ParentsFirstPrepend(x: Node, b: seq<Node>, top: string)
    requires ParentPath(x.path) == top && ParentsFirst(b, x.path)
    ensures ParentsFirst([x] + b, top)
  {
    var w := [x] + b;
    forall i | 0 < i < |w| && ParentPath(w[i].path) != top
      ensures ParentBefore(w, i)
    {
      assert w[i] == b[i - 1];
      if ParentPath(b[i - 1].path) == x.path {
        assert w[0] == x;
      } else {
        var j :| 0 <= j < i - 1 && b[j].path == ParentPath(b[i - 1].path);
        assert w[j + 1] == b[j];
      }
    }
  }

  /** Every node of `w` after the first comes after its parent. */
  predicate AfterParent(w: seq<Node>) {
    forall i :: 0 < i < |w| ==> ParentBefore(w, i)
  }

  lemma HeadThenParentBefore(n: Node, rest: seq<Node>, i: int)
    requires ParentsFirst(rest, n.path) && 0 < i <= |rest|
    ensures ParentBefore([n] + rest, i)
  {
    var w := [n] + rest;
    assert w[i] == rest[i - 1];
    if ParentPath(rest[i - 1].path) == n.path {
      assert w[0] == n;
    } else {
      assert ParentBefore(rest, i - 1);
      var j :| 0 <= j < i - 1 && rest[j].path == ParentPath(rest[i - 1].path);
      assert w[j + 1] == rest[j];
    }
  }

  lemma HeadThenParentsFirst(n: Node, rest: seq<Node>)
    requires ParentsFirst(rest, n.path)
    ensures AfterParent([n] + rest)
  {
    forall i | 0 < i < |[n] + rest|
      ensures ParentBefore([n] + rest, i)
    {
      HeadThenParentBefore(n, rest, i);
    }
  }

  lemma {:induction false} WalkParentsFirstFrom(parent: Node, n: Node, o: WalkOpts, atDepth: int)
    requires WellFormed(parent) && n in parent.children
    ensures ParentsFirst(Walk(n, o, atDepth), parent.path)
    decreases n, 1, 0
  {
    ParentOfChild(parent, n);
    var w := Walk(n, o, atDepth);
    if w != [] && !(o.fixedDepth > 0 && atDepth == o.fixedDepth) {
      var d := if o.fixedDepth > 0 then atDepth + 1 else atDepth;
      WalkAllParentsFirst(n, Children(n, o), o, d);
      ParentsFirstPrepend(n, WalkAll(n, Children(n, o), o, d), parent.path);
    }
  }

  lemma {:induction false} WalkAllParentsFirst(parent: Node, cs: seq<Node>, o: WalkOpts, atDepth: int)
    requires WellFormed(parent)
    requires forall c :: c in cs ==> c in parent.children
    ensures ParentsFirst(WalkAll(parent, cs, o, atDepth), parent.path)
    decreases parent, 0, |cs|
  {
    if cs != [] {
      assert cs[0] in cs;
      WalkParentsFirstFrom(parent, cs[0], o, atDepth);
      WalkAllParentsFirst(parent, cs[1..], o, atDepth);
      ParentsFirstConcat(Walk(cs[0], o, atDepth), WalkAll(parent, cs[1..], o, atDepth), parent.path);
    }
  }

  /** Every node a walk yields after the first comes after its parent. */
  lemma WalkParentsFirst(n: Node, o: WalkOpts, atDepth: int)
    requires WellFormed(n)
    ensures AfterParent(Walk(n, o, atDepth))
  {
    var w := Walk(n, o, atDepth);
    if w != [] && !(o.fixedDepth > 0 && atDepth == o.fixedDepth) {
      var d := if o.fixedDepth > 0 then atDepth + 1 else atDepth;
      WalkAllParentsFirst(n, Children(n, o), o, d);
      HeadThenParentsFirst(n, WalkAll(n, Children(n, o), o, d));
    }
  }

  /** Removing the `k`-th element removes one occurrence of it. */
  lemma RemoveAt<T>(s: seq<T>, k: int)
    requires 0 <= k < |s|
    ensures s == s[..k] + [s[k]] + s[k + 1..]
    ensures multiset(s[..k] + s[k + 1..]) == multiset(s) - multiset{s[k]}
  {
    assert s == s[..k] + [s[k]] + s[k + 1..];
    assert multiset(s) == multiset(s[..k]) + multiset{s[k]} + multiset(s[k + 1..]);
  }

  /** Walking children in any order yields the same nodes. */
  lemma WalkAllPick(parent: Node, ds: seq<Node>, k: int, o: WalkOpts, atDepth: int)
    requires forall c :: c in ds ==> c in parent.children
    requires 0 <= k < |ds|
    ensures forall c :: c in ds[..k] + ds[k + 1..] ==> c in parent.children
    ensures multiset(WalkAll(parent, ds, o, atDepth))
      == multiset(Walk(ds[k], o, atDepth)) + multiset(WalkAll(parent, ds[..k] + ds[k + 1..], o, atDepth))
  {
    var x := ds[k];
    assert ds == ds[..k] + [x] + ds[k + 1..];
    WalkAllConcat(parent, ds[..k] + [x], ds[k + 1..], o, atDepth);
    WalkAllConcat(parent, ds[..k], [x], o, atDepth);
    WalkAllConcat(parent, ds[..k], ds[k + 1..], o, atDepth);
    assert WalkAll(parent, [x], o, atDepth) == Walk(x, o, atDepth);
  }

  /** Walking children in any order yields the same nodes. */
  lemma {:induction false} WalkAllPermutation(parent: Node, cs: seq<Node>, ds: seq<Node>, o: WalkOpts, atDepth: int)
    requires forall c :: c in cs ==> c in parent.children
    requires multiset(cs) == multiset(ds)
    ensures forall c :: c in ds ==> c in parent.children
    ensures multiset(WalkAll(parent, cs, o, atDepth)) == multiset(WalkAll(parent, ds, o, atDepth))
    decreases |cs|
  {
    assert forall c :: c in ds ==> c in multiset(cs);
    if cs != [] {
      var x := cs[0];
      assert x in multiset(ds);
      var k :| 0 <= k < |ds| && ds[k] == x;
      RemoveAt(ds, k);
      RemoveAt(cs, 0);
      assert cs[..0] + cs[1..] == cs[1..];
      WalkAllPermutation(parent, cs[1..], ds[..k] + ds[k + 1..], o, atDepth);
      WalkAllPick(parent, ds, k, o, atDepth);
      assert WalkAll(parent, cs, o, atDepth) == Walk(x, o, atDepth) + WalkAll(parent, cs[1..], o, atDepth);
    }
  }

  /** The same walk in DTS order: no sorter, not reversed. */
  function DtsOrder(o: WalkOpts): WalkOpts {
    o.(orderBy := None, reverse := false)
  }

  /** Sorting only permutes siblings: whatever the order, a walk yields the same nodes. */
  lemma {:induction false} WalkOrderFree(n: Node, o: WalkOpts, atDepth: int)
    ensures multiset(Walk(n, o, atDepth)) == multiset(Walk(n, DtsOrder(o), atDepth))
    decreases n, 1, 0
  {
    if !(o.enabledOnly && !n.Enabled()) && !(o.fixedDepth > 0 && atDepth == o.fixedDepth) {
      var d := if o.fixedDepth > 0 then atDepth + 1 else atDepth;
      WalkAllOrderFree(n, Children(n, o), o, d);
      WalkAllPermutation(n, Children(n, o), Children(n, DtsOrder(o)), DtsOrder(o), d);
    }
  }

  lemma {:induction false} WalkAllOrderFree(parent: Node, cs: seq<Node>, o: WalkOpts, atDepth: int)
    requires forall c :: c in cs ==> c in parent.children
    ensures multiset(WalkAll(parent, cs, o, atDepth)) == multiset(WalkAll(parent, cs, DtsOrder(o), atDepth))
    decreases parent, 0, |cs|
  {
    if cs != [] {
      assert cs[0] in cs;
      WalkOrderFree(cs[0], o, atDepth);
      WalkAllOrderFree(parent, cs[1..], o, atDepth);
    }
  }

  /** `m` lies in the branch under `n`. */
  predicate InBranch(n: Node, m: Node)
    decreases n
  {
    m == n || exists c :: c in n.children && InBranch(c, m)
  }

  /** Without pruning or depth limit, a walk yields exactly the nodes of the branch. */
  lemma {:induction false} WalkComplete(n: Node, o: WalkOpts, atDepth: int, m: Node)
    requires !o.enabledOnly && o.fixedDepth <= 0
    ensures m in Walk(n, o, atDepth) <==> InBranch(n, m)
    decreases n, 1, 0
  {
    var cs := Children(n, o);
    var rest := WalkAll(n, cs, o, atDepth);
    assert Walk(n, o, atDepth) == [n] + rest;
    assert m in [n] + rest <==> m == n || m in rest;
    WalkAllComplete(n, cs, o, atDepth, m);
    AllChildrenVisited(n, o);
  }

  /** Without pruning, the visited children are all the children. */
  lemma AllChildrenVisited(n: Node, o: WalkOpts)
    requires !o.enabledOnly
    ensures forall c :: c in n.children ==> c in Children(n, o)
  {
    var cs := Children(n, o);
    assert multiset(cs) == multiset(n.children);
    forall c | c in n.children ensures c in cs {
      assert c in multiset(n.children);
    }
  }

  lemma {:induction false} WalkAllComplete(parent: Node, cs: seq<Node>, o: WalkOpts, atDepth: int, m: Node)
    requires !o.enabledOnly && o.fixedDepth <= 0
    requires forall c :: c in cs ==> c in parent.children
    ensures m in WalkAll(parent, cs, o, atDepth) <==> exists c :: c in cs && InBranch(c, m)
    decreases parent, 0, |cs|
  {
    if cs != [] {
      assert cs[0] in cs;
      WalkComplete(cs[0], o, atDepth, m);
      WalkAllComplete(parent, cs[1..], o, atDepth, m);
      assert forall c :: c in cs <==> c == cs[0] || c in cs[1..];
    }
  }

  /** `DTNode.walk()` from a branch with the walk parameters. */
  function WalkFrom(n: Node, orderBy: Option<SortKey>, reverse: bool, enabledOnly: bool, fixedDepth: int): seq<Node> {
    Walk(n, WalkOpts(orderBy, reverse, enabledOnly, fixedDepth), 0)
  }

  /**
   * `DTNode.find()`: the accepted nodes of the DTS-order walk (pruned when
   * `enabled_only`), then sorted or reversed.
   */
  function Find(n: Node, accept: Node -> bool, orderBy: Option<SortKey>, reverse: bool, enabledOnly: bool): seq<Node> {
    Arrange(Select(accept, WalkFrom(n, None, false, enabledOnly, 0)), orderBy, reverse)
  }

  /** `find` returns exactly the walked nodes the criterion accepts, each as often as walked. */
  lemma FindExact(n: Node, accept: Node -> bool, orderBy: Option<SortKey>, reverse: bool, enabledOnly: bool)
    ensures var found := Find(n, accept, orderBy, reverse, enabledOnly);
      multiset(found) == multiset(Select(accept, WalkFrom(n, None, false, enabledOnly, 0)))
      && forall m :: m in found <==> accept(m) && (if enabledOnly then m in WalkFrom(n, None, false, true, 0) else InBranch(n, m))
  {
    var w := WalkFrom(n, None, false, enabledOnly, 0);
    var found := Find(n, accept, orderBy, reverse, enabledOnly);
    forall m ensures m in found <==> m in w && accept(m) {
      assert m in found <==> m in multiset(found);
      SelectMember(accept, w, m);
    }
    if !enabledOnly {
      forall m ensures m in w <==> InBranch(n, m) {
        WalkComplete(n, WalkOpts(None, false, false, 0), 0, m);
      }
    }
  }

  /** The elements of a sequence, as a set. */
  function Elems<T(!new)>(s: seq<T>): (r: set<T>)
    ensures forall x :: x in r <==> x in s
  {
    set x | x in s
  }

  /** The comb: the nodes on the way from some leaves back to the root, by path. */
  function CombOf(leaves: seq<Node>): set<string>
    requires forall k :: 0 <= k < |leaves| ==> DTPath.Rooted(leaves[k].path)
  {
    if leaves == [] then {}
    else CombOf(leaves[..|leaves| - 1]) + Elems(RWalk(leaves[|leaves| - 1].path))
  }

  /** A set of paths that holds the parent of each of its paths. */
  predicate ClosedUnderParent(comb: set<string>) {
    forall p :: p in comb ==> ParentPath(p) in comb
  }

  lemma {:induction false} RWalkClosed(path: string)
    requires DTPath.Rooted(path)
    ensures forall p :: p in RWalk(path) ==> ParentPath(p) in RWalk(path)
    decreases |path|
  {
    if path == "/" {
      RootIsOwnParent();
    } else {
      DirnameShorter(path);
      RWalkClosed(ParentPath(path));
    }
  }

  /** The comb holds, with each node, all of its ancestors. */
  lemma {:induction false} CombClosed(leaves: seq<Node>)
    requires forall k :: 0 <= k < |leaves| ==> DTPath.Rooted(leaves[k].path)
    ensures ClosedUnderParent(CombOf(leaves))
  {
    if leaves != [] {
      CombClosed(leaves[..|leaves| - 1]);
      RWalkClosed(leaves[|leaves| - 1].path);
    }
  }

  /** `DTWalkableComb._walk()`: comb nodes only, siblings sorted or reversed. */
  function CombWalk(n: Node, comb: set<string>, orderBy: Option<SortKey>, reverse: bool): (r: seq<Node>)
    ensures r == [] <==> n.path !in comb
    ensures r != [] ==> r[0] == n
    decreases n, 1, 0
  {
    if n.path !in comb then []
    else
      var cs := Arrange(n.children, orderBy, reverse);
      assert forall c :: c in cs ==> c in multiset(n.children);
      [n] + CombWalkAll(n, cs, comb, orderBy, reverse)
  }

  function CombWalkAll(parent: Node, cs: seq<Node>, comb: set<string>, orderBy: Option<SortKey>, reverse: bool): seq<Node>
    requires forall c :: c in cs ==> c in parent.children
    decreases parent, 0, |cs|
  {
    if cs == [] then []
    else
      assert cs[0] in parent.children;
      CombWalk(cs[0], comb, orderBy, reverse) + CombWalkAll(parent, cs[1..], comb, orderBy, reverse)
  }

  /** `m` is reached from `n` through comb nodes only. */
  predicate CombReach(n: Node, m: Node, comb: set<string>)
    decreases n
  {
    n.path in comb && (m == n || exists c :: c in n.children && CombReach(c, m, comb))
  }

  /** The comb walk yields exactly the comb nodes reachable through comb nodes. */
  lemma {:induction false} CombWalkExact(n: Node, comb: set<string>, orderBy: Option<SortKey>, reverse: bool, m: Node)
    ensures m in CombWalk(n, comb, orderBy, reverse) <==> CombReach(n, m, comb)
    decreases n, 1, 0
  {
    if n.path in comb {
      var cs := Arrange(n.children, orderBy, reverse);
      assert forall c :: c in cs ==> c in multiset(n.children);
      assert CombWalk(n, comb, orderBy, reverse) == [n] + CombWalkAll(n, cs, comb, orderBy, reverse);
      CombWalkAllExact(n, cs, comb, orderBy, reverse, m);
      if m != n && CombReach(n, m, comb) {
        var c :| c in n.children && CombReach(c, m, comb);
        assert c in multiset(cs);
        assert c in cs;
      }
    }
  }

  lemma {:induction false} CombWalkAllExact(parent: Node, cs: seq<Node>, comb: set<string>, orderBy: Option<SortKey>, reverse: bool, m: Node)
    requires forall c :: c in cs ==> c in parent.children
    ensures m in CombWalkAll(parent, cs, comb, orderBy, reverse) <==> exists c :: c in cs && CombReach(c, m, comb)
    decreases parent, 0, |cs|
  {
    if cs != [] {
      assert cs[0] in cs;
      CombWalkExact(cs[0], comb, orderBy, reverse, m);
      CombWalkAllExact(parent, cs[1..], comb, orderBy, reverse, m);
      assert forall c :: c in cs <==> c == cs[0] || c in cs[1..];
    }
  }

  /** In a closed comb, a comb node in the branch has its whole lineage in the comb. */
  lemma {:induction false} LineageInComb(n: Node, m: Node, comb: set<string>)
    requires WellFormed(n) && ClosedUnderParent(comb) && InBranch(n, m) && m.path in comb
    ensures CombReach(n, m, comb)
    decreases n
  {
    if m != n {
      var c :| c in n.children && InBranch(c, m);
      LineageInComb(c, m, comb);
      ParentOfChild(n, c);
    }
  }

  /**
   * With a comb closed under parents (as every comb built from leaves is),
   * the comb walk from a comb node yields exactly the comb nodes of its branch.
   */
  lemma CombWalkBranch(n: Node, comb: set<string>, orderBy: Option<SortKey>, reverse: bool, m: Node)
    requires WellFormed(n) && ClosedUnderParent(comb) && n.path in comb
    ensures m in CombWalk(n, comb, orderBy, reverse) <==> InBranch(n, m) && m.path in comb
  {
    CombWalkExact(n, comb, orderBy, reverse, m);
    if InBranch(n, m) && m.path in comb {
      LineageInComb(n, m, comb);
    }
    if CombReach(n, m, comb) {
      CombReachInBranch(n, m, comb);
    }
  }

  lemma {:induction false} CombReachInBranch(n: Node, m: Node, comb: set<string>)
    requires CombReach(n, m, comb)
    ensures InBranch(n, m) && m.path in comb
    decreases n
  {
    if m != n {
      var c :| c in n.children && CombReach(c, m, comb);
      CombReachInBranch(c, m, comb);
    }
  }

  lemma {:induction false} CombWalkParentsFirstFrom(parent: Node, n: Node, comb: set<string>, orderBy: Option<SortKey>, reverse: bool)
    requires WellFormed(parent) && n in parent.children
    ensures ParentsFirst(CombWalk(n, comb, orderBy, reverse), parent.path)
    decreases n, 1, 0
  {
    ParentOfChild(parent, n);
    if n.path in comb {
      var cs := Arrange(n.children, orderBy, reverse);
      assert forall c :: c in cs ==> c in multiset(n.children);
      CombWalkAllParentsFirst(n, cs, comb, orderBy, reverse);
      ParentsFirstPrepend(n, CombWalkAll(n, cs, comb, orderBy, reverse), parent.path);
    }
  }

  lemma {:induction false} CombWalkAllParentsFirst(parent: Node, cs: seq<Node>, comb: set<string>, orderBy: Option<SortKey>, reverse: bool)
    requires WellFormed(parent)
    requires forall c :: c in cs ==> c in parent.children
    ensures ParentsFirst(CombWalkAll(parent, cs, comb, orderBy, reverse), parent.path)
    decreases parent, 0, |cs|
  {
    if cs != [] {
      assert cs[0] in cs;
      CombWalkParentsFirstFrom(parent, cs[0], comb, orderBy, reverse);
      CombWalkAllParentsFirst(parent, cs[1..], comb, orderBy, reverse);
      ParentsFirstConcat(CombWalk(cs[0], comb, orderBy, reverse), CombWalkAll(parent, cs[1..], comb, orderBy, reverse), parent.path);
    }
  }

  /** The comb walk also yields every node after its parent. */
  lemma CombWalkParentsFirst(n: Node, comb: set<string>, orderBy: Option<SortKey>, reverse: bool)
    requires WellFormed(n)
    ensures AfterParent(CombWalk(n, comb, orderBy, reverse))
  {
    if n.path in comb {
      var cs := Arrange(n.children, orderBy, reverse);
      assert forall c :: c in cs ==> c in multiset(n.children);
      CombWalkAllParentsFirst(n, cs, comb, orderBy, reverse);
      HeadThenParentsFirst(n, CombWalkAll(n, cs, comb, orderBy, reverse));
    }
  }

  /** `DTWalkableComb`: a root and the comb of some leaves. */
  class Comb {
    const root: Node
    var comb: set<string>

    /** Gathers the paths of every node from each leaf back to the root. */
    constructor(root: Node, leaves: seq<Node>)
      requires forall k :: 0 <= k < |leaves| ==> DTPath.Rooted(leaves[k].path)
      ensures this.root == root && comb == CombOf(leaves)
    {
      var paths: set<string> := {};
      var i := 0;
      while i < |leaves|
        invariant 0 <= i <= |leaves|
        invariant paths == CombOf(leaves[..i])
      {
        assert leaves[..i + 1][..i] == leaves[..i];
        paths := paths + Elems(RWalk(leaves[i].path));
        i := i + 1;
      }
      assert leaves[..i] == leaves;
      this.root := root;
      comb := paths;
    }

    /** `DTWalkableComb.walk()`: pruning and depth limit do not apply. */
    function Walk(orderBy: Option<SortKey>, reverse: bool): seq<Node>
      reads this
    {
      CombWalk(root, comb, orderBy, reverse)
    }
  }

  /** A comb without leaves is empty, and so is its walk. */
  lemma CombNoLeaves(root: Node, orderBy: Option<SortKey>, reverse: bool)
    ensures CombOf([]) == {} && CombWalk(root, CombOf([]), orderBy, reverse) == []
  {
  }
}
