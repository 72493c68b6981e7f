/**
 * The sort engine (`DTNodeSorter` and `DTNodeSortByAttr`): nodes are split
 * into those the sorter can weigh and the others, the former are sorted
 * stably by weight, and the latter go last, or first in reverse order.
 * A list-valued attribute weighs by its minimum ascending and by its
 * maximum descending.
 */
module Sorting {
  import opened Wrappers
  import opened Nodes

  /** A sort weight: sorters weigh nodes by integers or by strings. */
  datatype Weight = WInt(i: int) | WStr(s: string)

  /** Python's `<=` on strings: lexicographic by code point. */
  predicate StrLeq(a: string, b: string) {
    a == [] || (b != [] && (a[0] < b[0] || (a[0] == b[0] && StrLeq(a[1..], b[1..]))))
  }

  /** The weight order; a sorter never mixes integers and strings, placed here integers first. */
  predicate Leq(a: Weight, b: Weight) {
    match (a, b)
    case (WInt(x), WInt(y)) => x <= y
    case (WStr(x), WStr(y)) => StrLeq(x, y)
    case (WInt(_), WStr(_)) => true
    case (WStr(_), WInt(_)) => false
  }

  lemma {:induction false} StrLeqRefl(a: string)
    ensures StrLeq(a, a)
  {
    if a != [] {
      StrLeqRefl(a[1..]);
    }
  }

  lemma {:induction false} StrLeqTotal(a: string, b: string)
    ensures StrLeq(a, b) || StrLeq(b, a)
  {
    if a != [] && b != [] && a[0] == b[0] {
      StrLeqTotal(a[1..], b[1..]);
    }
  }

  lemma {:induction false} StrLeqTrans(a: string, b: string, c: string)
    requires StrLeq(a, b) && StrLeq(b, c)
    ensures StrLeq(a, c)
  {
    if a != [] && b != [] && c != [] && a[0] == b[0] && b[0] == c[0] {
      StrLeqTrans(a[1..], b[1..], c[1..]);
    }
  }

  lemma {:induction false} StrLeqAntisym(a: string, b: string)
    requires StrLeq(a, b) && StrLeq(b, a)
    ensures a == b
  {
    if a != [] && b != [] {
      StrLeqAntisym(a[1..], b[1..]);
      assert a == [a[0]] + a[1..] && b == [b[0]] + b[1..];
    }
  }

  lemma LeqRefl(a: Weight)
    ensures Leq(a, a)
  {
    if a.WStr? { StrLeqRefl(a.s); }
  }

  lemma LeqTotal(a: Weight, b: Weight)
    ensures Leq(a, b) || Leq(b, a)
  {
    if a.WStr? && b.WStr? { StrLeqTotal(a.s, b.s); }
  }

  lemma LeqTrans(a: Weight, b: Weight, c: Weight)
    requires Leq(a, b) && Leq(b, c)
    ensures Leq(a, c)
  {
    if a.WStr? && b.WStr? && c.WStr? { StrLeqTrans(a.s, b.s, c.s); }
  }

  /** The weight order is a total order. */
  lemma LeqTotalOrder()
    ensures forall a :: Leq(a, a)
    ensures forall a, b :: Leq(a, b) || Leq(b, a)
    ensures forall a, b, c :: Leq(a, b) && Leq(b, c) ==> Leq(a, c)
    ensures forall a, b :: Leq(a, b) && Leq(b, a) ==> a == b
  {
    forall a: Weight ensures Leq(a, a) {
      if a.WStr? { StrLeqRefl(a.s); }
    }
    forall a: Weight, b: Weight ensures Leq(a, b) || Leq(b, a) {
      if a.WStr? && b.WStr? { StrLeqTotal(a.s, b.s); }
    }
    forall a: Weight, b: Weight, c: Weight | Leq(a, b) && Leq(b, c) ensures Leq(a, c) {
      if a.WStr? && b.WStr? && c.WStr? { StrLeqTrans(a.s, b.s, c.s); }
    }
    forall a: Weight, b: Weight | Leq(a, b) && Leq(b, a) ensures a == b {
      if a.WStr? && b.WStr? { StrLeqAntisym(a.s, b.s); }
    }
  }

  /** Python's `min()` of a non-empty list of weights. */
  function MinW(ws: seq<Weight>): (m: Weight)
    requires |ws| > 0
    ensures m in ws && forall k :: 0 <= k < |ws| ==> Leq(m, ws[k])
  {
    LeqTotalOrder();
    if |ws| == 1 then ws[0]
    else
      var m := MinW(ws[1..]);
      assert forall k :: 1 <= k < |ws| ==> ws[k] == ws[1..][k - 1];
      if Leq(ws[0], m) then ws[0] else m
  }

  /** Python's `max()` of a non-empty list of weights. */
  function MaxW(ws: seq<Weight>): (m: Weight)
    requires |ws| > 0
    ensures m in ws && forall k :: 0 <= k < |ws| ==> Leq(ws[k], m)
  {
    LeqTotalOrder();
    if |ws| == 1 then ws[0]
    else
      var m := MaxW(ws[1..]);
      assert forall k :: 1 <= k < |ws| ==> ws[k] == ws[1..][k - 1];
      if Leq(m, ws[0]) then ws[0] else m
  }

  /** The `order-by` keys and their sorters (the `DTSH_NODE_ORDER_BY` table). */
  datatype SortKey =
    | PathKey | NodeNameKey | UnitNameKey | UnitAddrKey | CompatiblesKey
    | BindingKey | VendorKey | DeviceLabelKey | NodeLabelsKey | AliasesKey
    | BusesKey | OnBusKey | DepOrdinalKey | IrqNumberKey | IrqPriorityKey
    | RegAddrKey | RegSizeKey | BindingDepthKey

  /** What a sorter weighs: one value, or a list it reduces to its minimum or maximum. */
  datatype Gravity = One(w: Weight) | Many(ws: seq<Weight>)

  function Strs(ss: seq<string>): (r: seq<Weight>)
    ensures |r| == |ss|
  {
    seq(|ss|, k requires 0 <= k < |ss| => WStr(ss[k]))
  }

  function Ints(xs: seq<int>): (r: seq<Weight>)
    ensures |r| == |xs|
  {
    seq(|xs|, k requires 0 <= k < |xs| => WInt(xs[k]))
  }

  /** The interrupt priorities, `sys.maxsize` standing for a missing one. */
  function IrqPriorities(irqs: seq<Irq>): seq<int> {
    seq(|irqs|, k requires 0 <= k < |irqs| => irqs[k].priority.GetOr(MaxSize))
  }

  function RegAddrs(regs: seq<Register>): seq<int> {
    seq(|regs|, k requires 0 <= k < |regs| => regs[k].Address())
  }

  function RegSizes(regs: seq<Register>): seq<int> {
    seq(|regs|, k requires 0 <= k < |regs| => regs[k].Size())
  }

  /** The sorted attribute is set and is not an empty list. */
  predicate Sortable(key: SortKey, n: Node) {
    match key
    case PathKey => true
    case NodeNameKey => true
    case UnitNameKey => true
    case UnitAddrKey => n.unitAddr.Some?
    case CompatiblesKey => n.compatibles != []
    case BindingKey => n.compatible.Some?
    case VendorKey => n.vendor.Some?
    case DeviceLabelKey => n.deviceLabel.Some?
    case NodeLabelsKey => n.labels != []
    case AliasesKey => n.aliases != []
    case BusesKey => n.buses != []
    case OnBusKey => n.OnBus().Some?
    case DepOrdinalKey => true
    case IrqNumberKey => n.interrupts != []
    case IrqPriorityKey => n.interrupts != []
    case RegAddrKey => n.registers != []
    case RegSizeKey => n.registers != []
    case BindingDepthKey => n.binding.Some?
  }

  /** The sorter's `gravity()` for a node it can weigh. */
  function GravityOf(key: SortKey, n: Node): (g: Gravity)
    requires Sortable(key, n)
    ensures g.Many? ==> g.ws != []
  {
    match key
    case PathKey => One(WStr(n.path))
    case NodeNameKey => One(WStr(n.name))
    case UnitNameKey => One(WStr(n.UnitName()))
    case UnitAddrKey => One(WInt(n.unitAddr.value))
    case CompatiblesKey => Many(Strs(n.compatibles))
    case BindingKey => One(WStr(n.compatible.value))
    case VendorKey => Many([WStr(n.vendor.value.name)])
    case DeviceLabelKey => One(WStr(n.deviceLabel.value))
    case NodeLabelsKey => Many(Strs(n.labels))
    case AliasesKey => Many(Strs(n.aliases))
    case BusesKey => Many(Strs(n.buses))
    case OnBusKey => One(WStr(n.OnBus().value))
    case DepOrdinalKey => One(WInt(n.depOrdinal))
    case IrqNumberKey => Many(Ints(seq(|n.interrupts|, k requires 0 <= k < |n.interrupts| => n.interrupts[k].number)))
    case IrqPriorityKey => Many(Ints(IrqPriorities(n.interrupts)))
    case RegAddrKey => Many(Ints(RegAddrs(n.registers)))
    case RegSizeKey => Many(Ints(RegSizes(n.registers)))
    case BindingDepthKey => One(WInt(n.binding.value.cbDepth))
  }

  /** The sorter's `weight()`; only sortable nodes are ever weighed. */
  function WeightOf(key: SortKey, n: Node, reverse: bool): Weight {
    if !Sortable(key, n) then WInt(0)
    else match GravityOf(key, n)
      case One(w) => w
      case Many(ws) => if reverse then MaxW(ws) else MinW(ws)
  }

  /** A list-valued weight is the list's minimum ascending and its maximum descending. */
  lemma ListWeight(key: SortKey, n: Node, reverse: bool)
    requires Sortable(key, n) && GravityOf(key, n).Many?
    ensures var ws := GravityOf(key, n).ws; var w := WeightOf(key, n, reverse);
      w in ws
      && (!reverse ==> forall k :: 0 <= k < |ws| ==> Leq(w, ws[k]))
      && (reverse ==> forall k :: 0 <= k < |ws| ==> Leq(ws[k], w))
  {
  }

  /** The sorter's weight function for one direction, as given to Python's `sorted(key=...)`. */
  function Weigher(key: SortKey, reverse: bool): Node -> Weight {
    n => WeightOf(key, n, reverse)
  }

  /** The sorter's test of whether it can weigh a node. */
  function CanWeigh(key: SortKey): Node -> bool {
    n => Sortable(key, n)
  }

  /** The nodes that pass `p`, in input order. */
  function Select(p: Node -> bool, nodes: seq<Node>): (r: seq<Node>)
    ensures |r| <= |nodes|
  {
    if nodes == [] then []
    else (if p(nodes[0]) then [nodes[0]] else []) + Select(p, nodes[1..])
  }

  /** The nodes that fail `p`, in input order. */
  function Reject(p: Node -> bool, nodes: seq<Node>): (r: seq<Node>)
    ensures |r| <= |nodes|
  {
    if nodes == [] then []
    else (if p(nodes[0]) then [] else [nodes[0]]) + Reject(p, nodes[1..])
  }

  /** A node is selected exactly when it is one of the nodes and passes. */
  lemma {:induction false} SelectMember(p: Node -> bool, nodes: seq<Node>, x: Node)
    ensures x in Select(p, nodes) <==> x in nodes && p(x)
  {
    if nodes != [] {
      SelectMember(p, nodes[1..], x);
      assert x in nodes <==> x == nodes[0] || x in nodes[1..];
    }
  }

  /** A node is rejected exactly when it is one of the nodes and fails. */
  lemma {:induction false} RejectMember(p: Node -> bool, nodes: seq<Node>, x: Node)
    ensures x in Reject(p, nodes) <==> x in nodes && !p(x)
  {
    if nodes != [] {
      RejectMember(p, nodes[1..], x);
      assert x in nodes <==> x == nodes[0] || x in nodes[1..];
    }
  }

  /** Every node lands in exactly one of the two parts. */
  lemma {:induction false} PartitionPermutes(p: Node -> bool, nodes: seq<Node>)
    ensures multiset(Select(p, nodes)) + multiset(Reject(p, nodes)) == multiset(nodes)
  {
    if nodes != [] {
      var x, t := nodes[0], nodes[1..];
      PartitionPermutes(p, t);
      assert nodes == [x] + t;
      assert multiset(nodes) == multiset{x} + multiset(t);
      if p(x) {
        assert Select(p, nodes) == [x] + Select(p, t);
        assert multiset(Select(p, nodes)) == multiset{x} + multiset(Select(p, t));
        assert Reject(p, nodes) == Reject(p, t);
      } else {
        assert Reject(p, nodes) == [x] + Reject(p, t);
        assert multiset(Reject(p, nodes)) == multiset{x} + multiset(Reject(p, t));
        assert Select(p, nodes) == Select(p, t);
      }
    }
  }

  /** Appending a node appends it to the part it belongs to. */
  lemma {:induction false} PartitionSnoc(p: Node -> bool, nodes: seq<Node>, n: Node)
    ensures Select(p, nodes + [n]) == Select(p, nodes) + (if p(n) then [n] else [])
    ensures Reject(p, nodes + [n]) == Reject(p, nodes) + (if p(n) then [] else [n])
  {
    if nodes == [] {
      assert [n][1..] == [];
    } else {
      var x, t := nodes[0], nodes[1..];
      assert nodes + [n] == [x] + (t + [n]);
      PartitionSnoc(p, t, n);
      if p(x) {
        assert Select(p, nodes + [n]) == [x] + Select(p, t + [n]);
        assert Reject(p, nodes + [n]) == Reject(p, t + [n]);
      } else {
        assert Select(p, nodes + [n]) == Select(p, t + [n]);
        assert Reject(p, nodes + [n]) == [x] + Reject(p, t + [n]);
      }
    }
  }

  /**
   * `split_sortable_unsortable()`: one pass appending each node to the
   * sortable or the unsortable list.
   */
  method SplitSortableUnsortable(key: SortKey, nodes: seq<Node>) returns (sortable: seq<Node>, unsortable: seq<Node>)
    ensures sortable == Select(CanWeigh(key), nodes)
    ensures unsortable == Reject(CanWeigh(key), nodes)
    ensures multiset(sortable) + multiset(unsortable) == multiset(nodes)
  {
    sortable := [];
    unsortable := [];
    var i := 0;
    while i < |nodes|
      invariant 0 <= i <= |nodes|
      invariant sortable == Select(CanWeigh(key), nodes[..i])
      invariant unsortable == Reject(CanWeigh(key), nodes[..i])
    {
      PartitionSnoc(CanWeigh(key), nodes[..i], nodes[i]);
      assert nodes[..i + 1] == nodes[..i] + [nodes[i]];
      if Sortable(key, nodes[i]) {
        sortable := sortable + [nodes[i]];
      } else {
        unsortable := unsortable + [nodes[i]];
      }
      i := i + 1;
    }
    assert nodes[..i] == nodes;
    PartitionPermutes(CanWeigh(key), nodes);
  }

  /** Stable insertion: `n` goes before the first node weighing at least as much. */
  function Insert(weight: Node -> Weight, n: Node, s: seq<Node>): (r: seq<Node>)
    ensures multiset(r) == multiset(s) + multiset{n}
    ensures |r| == |s| + 1
  {
    if s == [] || Leq(weight(n), weight(s[0])) then [n] + s
    else
      assert s == [s[0]] + s[1..];
      [s[0]] + Insert(weight, n, s[1..])
  }

  /** Python's stable `sorted(nodes, key=weight)`. */
  function StableSort(weight: Node -> Weight, nodes: seq<Node>): (r: seq<Node>)
    ensures multiset(r) == multiset(nodes)
  {
    if nodes == [] then []
    else
      assert nodes == [nodes[0]] + nodes[1..];
      Insert(weight, nodes[0], StableSort(weight, nodes[1..]))
  }

  /** Ascending by weight. */
  predicate SortedBy(weight: Node -> Weight, s: seq<Node>) {
    forall i, j :: 0 <= i < j < |s| ==> Leq(weight(s[i]), weight(s[j]))
  }

  /** Descending by weight. */
  predicate SortedDescBy(weight: Node -> Weight, s: seq<Node>) {
    forall i, j :: 0 <= i < j < |s| ==> Leq(weight(s[j]), weight(s[i]))
  }

  /** Every node of `s` weighs at least `b`. */
  predicate WeighsAtLeast(weight: Node -> Weight, b: Weight, s: seq<Node>) {
    forall k :: 0 <= k < |s| ==> Leq(b, weight(s[k]))
  }

  lemma SortedCons(weight: Node -> Weight, n: Node, s: seq<Node>)
    requires SortedBy(weight, s) && WeighsAtLeast(weight, weight(n), s)
    ensures SortedBy(weight, [n] + s)
  {
    var r := [n] + s;
    forall i, j | 0 <= i < j < |r|
      ensures Leq(weight(r[i]), weight(r[j]))
    {
      assert r[j] == s[j - 1];
      if i > 0 {
        assert r[i] == s[i - 1];
      }
    }
  }

  lemma {:induction false} InsertWeighsAtLeast(weight: Node -> Weight, b: Weight, n: Node, s: seq<Node>)
    requires Leq(b, weight(n)) && WeighsAtLeast(weight, b, s)
    ensures WeighsAtLeast(weight, b, Insert(weight, n, s))
  {
    if s != [] && !Leq(weight(n), weight(s[0])) {
      InsertWeighsAtLeast(weight, b, n, s[1..]);
      assert Insert(weight, n, s) == [s[0]] + Insert(weight, n, s[1..]);
    }
  }

  lemma {:induction false} InsertSorted(weight: Node -> Weight, n: Node, s: seq<Node>)
    requires SortedBy(weight, s)
    ensures SortedBy(weight, Insert(weight, n, s))
  {
    var wn := weight(n);
    if s == [] {
    } else if Leq(wn, weight(s[0])) {
      forall k | 0 <= k < |s| ensures Leq(wn, weight(s[k])) {
        if k > 0 {
          LeqTrans(wn, weight(s[0]), weight(s[k]));
        }
      }
      SortedCons(weight, n, s);
    } else {
      var w0 := weight(s[0]);
      LeqTotal(wn, w0);
      InsertSorted(weight, n, s[1..]);
      assert WeighsAtLeast(weight, w0, s[1..]) by {
        forall k | 0 <= k < |s[1..]| ensures Leq(w0, weight(s[1..][k])) {
          assert s[1..][k] == s[k + 1];
        }
      }
      InsertWeighsAtLeast(weight, w0, n, s[1..]);
      assert SortedBy(weight, s[1..]) by {
        forall i, j | 0 <= i < j < |s[1..]|
          ensures Leq(weight(s[1..][i]), weight(s[1..][j]))
        {
          assert s[1..][i] == s[i + 1] && s[1..][j] == s[j + 1];
        }
      }
      SortedCons(weight, s[0], Insert(weight, n, s[1..]));
    }
  }

  /** The stable sort orders by weight. */
  lemma {:induction false} StableSortSorted(weight: Node -> Weight, nodes: seq<Node>)
    ensures SortedBy(weight, StableSort(weight, nodes))
  {
    if nodes != [] {
      StableSortSorted(weight, nodes[1..]);
      InsertSorted(weight, nodes[0], StableSort(weight, nodes[1..]));
    }
  }

  /** The nodes of `s` of weight `w`, in order. */
  function OfWeight(weight: Node -> Weight, w: Weight, s: seq<Node>): seq<Node> {
    if s == [] then []
    else (if weight(s[0]) == w then [s[0]] else []) + OfWeight(weight, w, s[1..])
  }

  lemma {:induction false} InsertOfWeight(weight: Node -> Weight, w: Weight, n: Node, s: seq<Node>)
    ensures OfWeight(weight, w, Insert(weight, n, s))
      == (if weight(n) == w then [n] else []) + OfWeight(weight, w, s)
  {
    var r := Insert(weight, n, s);
    if s == [] || Leq(weight(n), weight(s[0])) {
      assert r[1..] == s;
    } else {
      LeqRefl(weight(n));
      InsertOfWeight(weight, w, n, s[1..]);
      assert r[0] == s[0] && r[1..] == Insert(weight, n, s[1..]);
    }
  }

  /** Stability: nodes of equal weight keep their input order. */
  lemma {:induction false} StableSortStable(weight: Node -> Weight, w: Weight, nodes: seq<Node>)
    ensures OfWeight(weight, w, StableSort(weight, nodes)) == OfWeight(weight, w, nodes)
  {
    if nodes != [] {
      StableSortStable(weight, w, nodes[1..]);
      InsertOfWeight(weight, w, nodes[0], StableSort(weight, nodes[1..]));
    }
  }

  /** `list.reverse()` */
  function Reverse<T>(s: seq<T>): (r: seq<T>)
    ensures |r| == |s| && forall k :: 0 <= k < |s| ==> r[k] == s[|s| - 1 - k]
  {
    if s == [] then [] else Reverse(s[1..]) + [s[0]]
  }

  lemma {:induction false} ReverseMultiset<T>(s: seq<T>)
    ensures multiset(Reverse(s)) == multiset(s)
  {
    if s != [] {
      ReverseMultiset(s[1..]);
      assert s == [s[0]] + s[1..];
    }
  }

  /**
   * `DTNodeSorter.sort()` as a function of its inputs: the sortable nodes
   * stably sorted and then the others, or, reversed, the others reversed
   * and then the sorted ones reversed.
   */
  function SortSpec(key: SortKey, nodes: seq<Node>, reverse: bool): seq<Node> {
    var sorted := StableSort(Weigher(key, reverse), Select(CanWeigh(key), nodes));
    var unsortable := Reject(CanWeigh(key), nodes);
    if reverse then Reverse(unsortable) + Reverse(sorted) else sorted + unsortable
  }

  /** Sorting returns a permutation of its input. */
  lemma SortPermutes(key: SortKey, nodes: seq<Node>, reverse: bool)
    ensures multiset(SortSpec(key, nodes, reverse)) == multiset(nodes)
  {
    PartitionPermutes(CanWeigh(key), nodes);
    ReverseMultiset(Reject(CanWeigh(key), nodes));
    ReverseMultiset(StableSort(Weigher(key, reverse), Select(CanWeigh(key), nodes)));
  }

  /**
   * Ascending: the sortable nodes come first in weight order, equal weights
   * in input order, then the unsortable nodes in input order.
   */
  lemma SortAscending(key: SortKey, nodes: seq<Node>)
    ensures var r := SortSpec(key, nodes, false); var s := Select(CanWeigh(key), nodes); var n := |s|;
      var weight := Weigher(key, false);
      r[n..] == Reject(CanWeigh(key), nodes)
      && multiset(r[..n]) == multiset(s)
      && SortedBy(weight, r[..n])
      && forall w :: OfWeight(weight, w, r[..n]) == OfWeight(weight, w, s)
  {
    var weight := Weigher(key, false);
    var s := Select(CanWeigh(key), nodes);
    var sorted := StableSort(weight, s);
    assert SortSpec(key, nodes, false)[..|s|] == sorted;
    StableSortSorted(weight, s);
    forall w ensures OfWeight(weight, w, sorted) == OfWeight(weight, w, s) {
      StableSortStable(weight, w, s);
    }
  }

  /**
   * Reversed: the unsortable nodes come first in reverse input order, then
   * the sortable nodes in descending weight order, equal weights in reverse
   * input order.
   */
  lemma SortDescending(key: SortKey, nodes: seq<Node>)
    ensures var r := SortSpec(key, nodes, true); var u := Reject(CanWeigh(key), nodes);
      var s := Select(CanWeigh(key), nodes); var m := |u|; var weight := Weigher(key, true);
      r[..m] == Reverse(u)
      && multiset(r[m..]) == multiset(s)
      && SortedDescBy(weight, r[m..])
      && forall w :: OfWeight(weight, w, r[m..]) == Reverse(OfWeight(weight, w, s))
  {
    var weight := Weigher(key, true);
    var s := Select(CanWeigh(key), nodes);
    var u := Reject(CanWeigh(key), nodes);
    var sorted := StableSort(weight, s);
    assert SortSpec(key, nodes, true)[|u|..] == Reverse(sorted);
    ReverseMultiset(sorted);
    StableSortSorted(weight, s);
    forall w ensures OfWeight(weight, w, Reverse(sorted)) == Reverse(OfWeight(weight, w, s)) {
      StableSortStable(weight, w, s);
      OfWeightReverse(weight, w, sorted);
    }
  }

  lemma {:induction false} OfWeightReverse(weight: Node -> Weight, w: Weight, s: seq<Node>)
    ensures OfWeight(weight, w, Reverse(s)) == Reverse(OfWeight(weight, w, s))
  {
    if s != [] {
      OfWeightReverse(weight, w, s[1..]);
      OfWeightSnoc(weight, w, Reverse(s[1..]), s[0]);
      var h: seq<Node> := if weight(s[0]) == w then [s[0]] else [];
      ReverseConcat(h, OfWeight(weight, w, s[1..]));
    }
  }

  lemma {:induction false} OfWeightSnoc(weight: Node -> Weight, w: Weight, s: seq<Node>, n: Node)
    ensures OfWeight(weight, w, s + [n]) == OfWeight(weight, w, s) + (if weight(n) == w then [n] else [])
  {
    if s == [] {
      assert [n][1..] == [];
    } else {
      assert (s + [n])[1..] == s[1..] + [n];
      OfWeightSnoc(weight, w, s[1..], n);
    }
  }

  lemma ReverseConcat<T>(a: seq<T>, b: seq<T>)
    ensures Reverse(a + b) == Reverse(b) + Reverse(a)
  {
  }

  /**
   * A sorter: its key, and the direction its last `sort()` stored for the
   * weight function to rely on (`DTNodeSortByAttr._reverse`).
   */
  class NodeSorter {
    const key: SortKey
    var reverse: bool

    constructor(key: SortKey)
      ensures this.key == key && !reverse
    {
      this.key := key;
      reverse := false;
    }

    /** `DTNodeSortByAttr.sort()`: store the direction, then split, sort and place the unsortable nodes. */
    method Sort(nodes: seq<Node>, reverse: bool) returns (r: seq<Node>)
      modifies this
      ensures this.reverse == reverse
      ensures r == SortSpec(key, nodes, reverse)
    {
      this.reverse := reverse;
      var sortable, unsortable := SplitSortableUnsortable(key, nodes);
      sortable := StableSort(Weigher(key, this.reverse), sortable);
      if this.reverse {
        sortable := Reverse(sortable);
        unsortable := Reverse(unsortable);
        r := unsortable + sortable;
      } else {
        r := sortable + unsortable;
      }
    }
  }
}
