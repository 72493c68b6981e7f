/**
 * Search criteria over devicetree nodes: text criteria that match a
 * pattern against the strings of one node aspect, integer criteria that
 * compare the integers of one aspect with a value, and the criterion chain
 * (`DTNodeCriteria`) that combines them with AND or OR and an optional NOT.
 * Both kinds of criterion are existential over their haystack: a node
 * matches when some haystack item does, so an empty haystack never matches.
 */
module Criteria {
  import opened Wrappers
  import opened Nodes
  import PyStr
  import Patterns

  /** The text aspects, one per `DTNodeTextCriterion` subclass. */
  datatype TextAspect =
    | WithPath | WithStatus | WithName | WithUnitName | WithCompatible
    | WithBinding | WithVendor | WithDeviceLabel | WithNodeLabel | WithAlias
    | WithChosen | WithBus | WithOnBus | WithDescription | AlsoKnownAs

  /** A plain-text criterion: the pattern as given on the command line, and whether to ignore case. */
  datatype TextCriterion = TextCriterion(pattern: string, ignoreCase: bool)

  /** `[x] if x else []`: a set, non-empty string. */
  function IfSet(x: Option<string>): (r: seq<string>)
    ensures |r| <= 1 && (r != [] <==> x.Some? && x.value != "")
    ensures r != [] ==> r[0] == x.value
  {
    if x.Some? && x.value != "" then [x.value] else []
  }

  /** The binding's compatible string and headline, those that are set. */
  function BindingHaystack(n: Node): seq<string> {
    match n.binding
    case None => []
    case Some(b) => IfSet(b.compatible) + IfSet(b.Headline())
  }

  /** `get_haystack()` for each text aspect. */
  function TextHaystack(aspect: TextAspect, n: Node): seq<string> {
    match aspect
    case WithPath => [n.path]
    case WithStatus => [n.status]
    case WithName => [n.name]
    case WithUnitName => [n.UnitName()]
    case WithCompatible => n.compatibles
    case WithBinding => BindingHaystack(n)
    case WithVendor => if n.vendor.Some? then [n.vendor.value.prefix, n.vendor.value.name] else []
    case WithDeviceLabel => IfSet(n.deviceLabel)
    case WithNodeLabel => n.labels
    case WithAlias => n.aliases
    case WithChosen => n.chosen
    case WithBus => n.buses
    case WithOnBus => IfSet(n.OnBus())
    case WithDescription => if n.description.Some? then PyStr.SplitLines(n.description.value) else []
    case AlsoKnownAs => n.aliases + n.labels + IfSet(n.deviceLabel)
  }

  /** `any(self._re.match(txt) ... for txt in haystack)`. */
  function AnyText(c: TextCriterion, haystack: seq<string>): (r: bool)
    ensures r <==> exists k :: 0 <= k < |haystack| && Patterns.Matches(c.pattern, c.ignoreCase, haystack[k])
  {
    if haystack == [] then false
    else Patterns.Matches(c.pattern, c.ignoreCase, haystack[0]) || AnyText(c, haystack[1..])
  }

  /**
   * `DTNodeWithBinding.match()` as written: it compares the raw pattern with
   * ".*", so a bare "*" goes through the haystack like any other pattern.
   */
  function BindingMatchAsWritten(c: TextCriterion, n: Node): (r: bool)
    ensures r ==> n.binding.Some?
  {
    if c.pattern == ".*" then n.binding.Some? else AnyText(c, BindingHaystack(n))
  }

  /** `DTNodeWithBinding.match()` as documented: "*" matches every node that has a binding. */
  function BindingMatch(c: TextCriterion, n: Node): (r: bool)
    ensures r ==> n.binding.Some?
    ensures c.pattern in {"*", ".*"} ==> (r <==> n.binding.Some?)
  {
    if c.pattern == ".*" || c.pattern == "*" then n.binding.Some? else AnyText(c, BindingHaystack(n))
  }

  /** As written, "*" misses a node whose binding has neither compatible string nor description. */
  lemma BindingStarMissesBareBinding(n: Node)
    requires n.binding == Some(Binding(None, None, 0, None))
    ensures !BindingMatchAsWritten(TextCriterion("*", false), n)
  {
    assert BindingHaystack(n) == [];
  }

  /** Apart from the bare "*", the as-written and documented binding criteria agree. */
  lemma BindingMatchAgrees(c: TextCriterion, n: Node)
    requires c.pattern != "*"
    ensures BindingMatch(c, n) == BindingMatchAsWritten(c, n)
  {
  }

  /** The integer comparison operators (`DTNodeIntCriterion.OPERATORS`). */
  datatype IntOp = Lt | Gt | Eq | Ge | Le | Ne

  /** `op(hay, value)`: the haystack item is the left operand. */
  predicate Apply(op: IntOp, hay: int, value: int) {
    match op
    case Lt => hay < value
    case Gt => hay > value
    case Eq => hay == value
    case Ge => hay >= value
    case Le => hay <= value
    case Ne => hay != value
  }

  /** An integer criterion: the operator (equality when absent) and the value (any value when absent). */
  datatype IntCriterion = IntCriterion(op: Option<IntOp>, value: Option<int>)

  /** The integer aspects, one per `DTNodeIntCriterion` subclass. */
  datatype IntAspect =
    | WithUnitAddr | WithIrqNumber | WithIrqPriority | WithRegAddr | WithRegSize
    | WithBindingDepth | WithDepOrd

  /** The priorities of the interrupts that have one, in order. */
  function SetPriorities(irqs: seq<Irq>): (r: seq<int>)
    ensures |r| <= |irqs|
  {
    if irqs == [] then []
    else (if irqs[0].priority.Some? then [irqs[0].priority.value] else []) + SetPriorities(irqs[1..])
  }

  /** The IRQ-priority haystack holds exactly the priorities that are set: a missing one is skipped, not defaulted. */
  lemma {:induction false} SetPrioritiesMember(irqs: seq<Irq>, p: int)
    ensures p in SetPriorities(irqs) <==> exists k :: 0 <= k < |irqs| && irqs[k].priority == Some(p)
  {
    if irqs != [] {
      SetPrioritiesMember(irqs[1..], p);
      var head := if irqs[0].priority.Some? then [irqs[0].priority.value] else [];
      assert SetPriorities(irqs) == head + SetPriorities(irqs[1..]);
      if exists k :: 0 <= k < |irqs| && irqs[k].priority == Some(p) {
        var k :| 0 <= k < |irqs| && irqs[k].priority == Some(p);
        if k > 0 {
          assert irqs[1..][k - 1] == irqs[k];
        }
      }
      if exists k :: 0 <= k < |irqs[1..]| && irqs[1..][k].priority == Some(p) {
        var k :| 0 <= k < |irqs[1..]| && irqs[1..][k].priority == Some(p);
        assert irqs[k + 1] == irqs[1..][k];
      }
    }
  }

  /** `get_haystack()` for each integer aspect. */
  function IntHaystack(aspect: IntAspect, n: Node): seq<int> {
    match aspect
    case WithUnitAddr => if n.unitAddr.Some? then [n.unitAddr.value] else []
    case WithIrqNumber => seq(|n.interrupts|, k requires 0 <= k < |n.interrupts| => n.interrupts[k].number)
    case WithIrqPriority => SetPriorities(n.interrupts)
    case WithRegAddr => seq(|n.registers|, k requires 0 <= k < |n.registers| => n.registers[k].Address())
    case WithRegSize => seq(|n.registers|, k requires 0 <= k < |n.registers| => n.registers[k].Size())
    case WithBindingDepth => if n.binding.Some? then [n.binding.value.cbDepth] else []
    case WithDepOrd => [n.depOrdinal]
  }

  /** One haystack item against the criterion: any item when no value is given. */
  predicate IntHit(c: IntCriterion, hay: int) {
    c.value.None? || Apply(c.op.GetOr(Eq), hay, c.value.value)
  }

  /** `DTNodeIntCriterion.match()` on a haystack. */
  function AnyInt(c: IntCriterion, haystack: seq<int>): (r: bool)
    ensures r <==> exists k :: 0 <= k < |haystack| && IntHit(c, haystack[k])
  {
    if haystack == [] then false else IntHit(c, haystack[0]) || AnyInt(c, haystack[1..])
  }

  /** Without a value, an integer criterion only asks for a non-empty haystack. */
  lemma AnyIntNoValue(c: IntCriterion, haystack: seq<int>)
    requires c.value.None?
    ensures AnyInt(c, haystack) <==> haystack != []
  {
    if haystack != [] {
      assert IntHit(c, haystack[0]);
    }
  }

  /** Without an operator, an integer criterion asks for its value in the haystack. */
  lemma AnyIntDefaultEquality(c: IntCriterion, haystack: seq<int>)
    requires c.op.None? && c.value.Some?
    ensures AnyInt(c, haystack) <==> c.value.value in haystack
  {
    if c.value.value in haystack {
      var k :| 0 <= k < |haystack| && haystack[k] == c.value.value;
      assert IntHit(c, haystack[k]);
    }
  }

  /**
   * A criterion of the chain: the base criterion (which matches nothing),
   * a text criterion on an aspect, or an integer criterion on an aspect.
   */
  datatype Criterion =
    | Never
    | Text(textAspect: TextAspect, text: TextCriterion)
    | Int(intAspect: IntAspect, integer: IntCriterion)

  /** `criterion.match(node)`, with the binding criterion as the code runs it. */
  predicate MatchOne(c: Criterion, n: Node) {
    match c
    case Never => false
    case Text(aspect, t) =>
      if aspect == WithBinding then BindingMatchAsWritten(t, n) else AnyText(t, TextHaystack(aspect, n))
    case Int(aspect, i) => AnyInt(i, IntHaystack(aspect, n))
  }

  /** `criterion.match(node)`, with the binding criterion as documented. */
  predicate MatchOneDocumented(c: Criterion, n: Node) {
    match c
    case Never => false
    case Text(aspect, t) =>
      if aspect == WithBinding then BindingMatch(t, n) else AnyText(t, TextHaystack(aspect, n))
    case Int(aspect, i) => AnyInt(i, IntHaystack(aspect, n))
  }

  /** The chain element behaves as documented except for a binding criterion on the bare "*". */
  lemma MatchOneAgrees(c: Criterion, n: Node)
    requires !(c.Text? && c.textAspect == WithBinding && c.text.pattern == "*")
    ensures MatchOne(c, n) == MatchOneDocumented(c, n)
  {
    if c.Text? && c.textAspect == WithBinding {
      BindingMatchAgrees(c.text, n);
    }
  }

  /** As documented, a binding criterion on "*" selects exactly the nodes that have a binding. */
  lemma MatchOneDocumentedStar(ignoreCase: bool, n: Node)
    ensures MatchOneDocumented(Text(WithBinding, TextCriterion("*", ignoreCase)), n) <==> n.binding.Some?
  {
  }

  /** A text criterion never matches a node whose haystack for it is empty. */
  lemma TextEmptyHaystack(aspect: TextAspect, t: TextCriterion, n: Node)
    requires aspect != WithBinding && TextHaystack(aspect, n) == []
    ensures !MatchOne(Text(aspect, t), n)
  {
  }

  /** On one-line haystacks, a text criterion without `*` is a (case-folded) substring search. */
  lemma TextSearch(aspect: TextAspect, t: TextCriterion, n: Node)
    requires aspect != WithBinding && '*' !in t.pattern
    requires forall k :: 0 <= k < |TextHaystack(aspect, n)| ==> '\n' !in TextHaystack(aspect, n)[k]
    ensures MatchOne(Text(aspect, t), n)
        <==> exists k :: 0 <= k < |TextHaystack(aspect, n)|
               && PyStr.ContainsSub(Patterns.Fold(TextHaystack(aspect, n)[k], t.ignoreCase), Patterns.Fold(t.pattern, t.ignoreCase))
  {
    var hs := TextHaystack(aspect, n);
    forall k | 0 <= k < |hs|
      ensures Patterns.Matches(t.pattern, t.ignoreCase, hs[k])
          <==> PyStr.ContainsSub(Patterns.Fold(hs[k], t.ignoreCase), Patterns.Fold(t.pattern, t.ignoreCase))
    {
      Patterns.SearchIsSubstring(t.pattern, t.ignoreCase, hs[k]);
    }
  }

  /** The description haystack is its lines, none of which holds a newline. */
  lemma DescriptionLines(n: Node)
    ensures forall k :: 0 <= k < |TextHaystack(WithDescription, n)| ==> '\n' !in TextHaystack(WithDescription, n)[k]
  {
    var hs := TextHaystack(WithDescription, n);
    forall k | 0 <= k < |hs|
      ensures '\n' !in hs[k]
    {
      assert forall j :: 0 <= j < |hs[k]| ==> !PyStr.IsLineBreak(hs[k][j]);
    }
  }

  /** `any(...)` over the chain. */
  function AnyMatch(cs: seq<Criterion>, n: Node): (r: bool)
    ensures r <==> exists k :: 0 <= k < |cs| && MatchOne(cs[k], n)
  {
    if cs == [] then false else MatchOne(cs[0], n) || AnyMatch(cs[1..], n)
  }

  /** `all(...)` over the chain. */
  function AllMatch(cs: seq<Criterion>, n: Node): (r: bool)
    ensures r <==> forall k :: 0 <= k < |cs| ==> MatchOne(cs[k], n)
  {
    if cs == [] then true
    else
      MatchOne(cs[0], n) && AllMatch(cs[1..], n)
  }

  /** `DTNodeCriteria`: a chain of criteria, ANDed or ORed, possibly negated. */
  class Criteria {
    var criteria: seq<Criterion>
    var ored: bool
    var negative: bool

    constructor(chain: seq<Criterion>, ored: bool, negative: bool)
      ensures criteria == chain && this.ored == ored && this.negative == negative
    {
      criteria := chain;
      this.ored := ored;
      this.negative := negative;
    }

    /** `append_criterion()`. */
    method AppendCriterion(c: Criterion)
      modifies this
      ensures criteria == old(criteria) + [c]
      ensures ored == old(ored) && negative == old(negative)
    {
      criteria := criteria + [c];
    }

    /**
     * `match()`: some criterion matches (OR chain) or all do (AND chain),
     * then negated for a negative chain. So the empty AND chain matches
     * every node and the empty negated AND chain none.
     */
    function Match(n: Node): (r: bool)
      reads this
      ensures ored ==> (r <==> (negative != exists k :: 0 <= k < |criteria| && MatchOne(criteria[k], n)))
      ensures !ored ==> (r <==> (negative != forall k :: 0 <= k < |criteria| ==> MatchOne(criteria[k], n)))
      ensures criteria == [] ==> (r <==> ored == negative)
    {
      var chainMatch := if ored then AnyMatch(criteria, n) else AllMatch(criteria, n);
      if negative then !chainMatch else chainMatch
    }
  }

  /** Appending to an AND chain narrows it; appending to an OR chain widens it. */
  lemma AppendNarrowsOrWidens(cs: seq<Criterion>, c: Criterion, n: Node)
    ensures AllMatch(cs + [c], n) <==> AllMatch(cs, n) && MatchOne(c, n)
    ensures AnyMatch(cs + [c], n) <==> AnyMatch(cs, n) || MatchOne(c, n)
  {
    var ds := cs + [c];
    assert forall k :: 0 <= k < |cs| ==> ds[k] == cs[k];
    assert ds[|cs|] == c;
  }
}
