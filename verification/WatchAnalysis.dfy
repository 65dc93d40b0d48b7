/** `findConstantAndWatchExpressions` and `getInputs`: which nodes are constant, which ones to watch. */
module WatchAnalysis {
  import opened Basics
  import opened JsValues
  import opened Expressions

  /** `_constant` */
  predicate IsConstant(e: Expr)
    decreases e, 1
  {
    match e
    case Literal(_) => true
    case Unary(_, operand) => IsConstant(operand)
    case Binary(_, left, right) => IsConstant(left) && IsConstant(right)
    case Logical(_, left, right) => IsConstant(left) && IsConstant(right)
    case Conditional(test, alternate, consequent) =>
      IsConstant(test) && IsConstant(alternate) && IsConstant(consequent)
    case Member(subject, _) => IsConstant(subject)
    case Computed(subject, index) => IsConstant(subject) && IsConstant(index)
    case Filter(_, args) => AllConstant(args)
    case Assignment(target, source) => IsConstant(target) && IsConstant(source)
    case Array(elements) => AllConstant(elements)
    case ObjectLiteral(properties) => PropertiesConstant(properties)
    case _ => false
  }

  predicate AllConstant(es: seq<Expr>)
    decreases es, 0
  {
    |es| == 0 || (IsConstant(es[0]) && AllConstant(es[1..]))
  }

  predicate PropertiesConstant(ps: seq<Property>)
    decreases ps, 0
  {
    |ps| == 0 || (assert (ps[0] decreases to ps[0].value); IsConstant(ps[0].value) && KeyConstant(ps[0])
        && PropertiesConstant(ps[1..]))
  }

  predicate KeyConstant(p: Property)
    decreases p, 0
  {
    p.Keyed? ==> IsConstant(p.keyExpr)
  }

  /** `_toWatch` */
  function ToWatch(e: Expr): seq<Expr>
    decreases e, 1
  {
    match e
    case Literal(_) => []
    case Unary(_, operand) => ToWatch(operand)
    case Binary(_, left, right) => ToWatch(left) + ToWatch(right)
    case Logical(_, _, _) => if IsConstant(e) then [] else [e]
    case Conditional(_, _, _) => if IsConstant(e) then [] else [e]
    case Member(_, _) => if IsConstant(e) then [] else [e]
    case Computed(_, _) => if IsConstant(e) then [] else [e]
    case Filter(_, args) => ToWatchAll(args)
    case Array(elements) => ToWatchAll(elements)
    case ObjectLiteral(properties) => ToWatchProperties(properties)
    case This => []
    case Locals => []
    case AssignedValue => []
    case _ => [e]
  }

  function ToWatchAll(es: seq<Expr>): seq<Expr>
    decreases es, 0
  {
    if |es| == 0 then [] else ToWatch(es[0]) + ToWatchAll(es[1..])
  }

  function ToWatchProperties(ps: seq<Property>): seq<Expr>
    decreases ps, 0
  {
    if |ps| == 0 then [] else
    assert (ps[0] decreases to ps[0].value);
    ToWatch(ps[0].value) + ToWatchKey(ps[0]) + ToWatchProperties(ps[1..])
  }

  function ToWatchKey(p: Property): seq<Expr>
    decreases p, 0
  {
    if p.Keyed? then ToWatch(p.keyExpr) else []
  }

  /** `getInputs` for a one-statement body: nothing when the expression is its own only watch. */
  function Inputs(e: Expr): Option<seq<Expr>> {
    var candidate := ToWatch(e);
    if |candidate| != 1 || candidate[0] != e then Some(candidate) else None
  }

  /** No assignment or update anywhere inside, and calls only if they are admitted. */
  predicate EffectFree(e: Expr, calls: bool)
    decreases e, 1
  {
    match e
    case Unary(_, operand) => EffectFree(operand, calls)
    case Binary(_, left, right) => EffectFree(left, calls) && EffectFree(right, calls)
    case Logical(_, left, right) => EffectFree(left, calls) && EffectFree(right, calls)
    case Conditional(test, alternate, consequent) =>
      EffectFree(test, calls) && EffectFree(alternate, calls) && EffectFree(consequent, calls)
    case Member(subject, _) => EffectFree(subject, calls)
    case Computed(subject, index) => EffectFree(subject, calls) && EffectFree(index, calls)
    case Filter(_, args) => AllEffectFree(args, calls)
    case Array(elements) => AllEffectFree(elements, calls)
    case ObjectLiteral(properties) => PropertiesEffectFree(properties, calls)
    case Call(callee, args) => calls && EffectFree(callee, calls) && AllEffectFree(args, calls)
    case Assignment(_, _) => false
    case Update(_, _, _) => false
    case AssignedValue => false
    case _ => true
  }

  predicate AllEffectFree(es: seq<Expr>, calls: bool)
    decreases es, 0
  {
    |es| == 0 || (EffectFree(es[0], calls) && AllEffectFree(es[1..], calls))
  }

  predicate PropertiesEffectFree(ps: seq<Property>, calls: bool)
    decreases ps, 0
  {
    |ps| == 0 || (assert (ps[0] decreases to ps[0].value); EffectFree(ps[0].value, calls) && KeyEffectFree(ps[0], calls)
        && PropertiesEffectFree(ps[1..], calls))
  }

  predicate KeyEffectFree(p: Property, calls: bool)
    decreases p, 0
  {
    p.Keyed? ==> EffectFree(p.keyExpr, calls)
  }

  /** Every filter the expression calls is one of these. */
  predicate FiltersAmong(e: Expr, names: set<string>)
    decreases e, 1
  {
    match e
    case Unary(_, operand) => FiltersAmong(operand, names)
    case Binary(_, left, right) => FiltersAmong(left, names) && FiltersAmong(right, names)
    case Logical(_, left, right) => FiltersAmong(left, names) && FiltersAmong(right, names)
    case Conditional(test, alternate, consequent) =>
      FiltersAmong(test, names) && FiltersAmong(alternate, names) && FiltersAmong(consequent, names)
    case Member(subject, _) => FiltersAmong(subject, names)
    case Computed(subject, index) => FiltersAmong(subject, names) && FiltersAmong(index, names)
    case Call(callee, args) => FiltersAmong(callee, names) && AllFiltersAmong(args, names)
    case Filter(filter, args) => filter in names && AllFiltersAmong(args, names)
    case Assignment(target, source) => FiltersAmong(target, names) && FiltersAmong(source, names)
    case Array(elements) => AllFiltersAmong(elements, names)
    case ObjectLiteral(properties) => PropertyFiltersAmong(properties, names)
    case Update(_, _, argument) => FiltersAmong(argument, names)
    case _ => true
  }

  predicate AllFiltersAmong(es: seq<Expr>, names: set<string>)
    decreases es, 0
  {
    |es| == 0 || (FiltersAmong(es[0], names) && AllFiltersAmong(es[1..], names))
  }

  predicate PropertyFiltersAmong(ps: seq<Property>, names: set<string>)
    decreases ps, 0
  {
    |ps| == 0
    || (assert (ps[0] decreases to ps[0].value);
        FiltersAmong(ps[0].value, names) && KeyFiltersAmong(ps[0], names) && PropertyFiltersAmong(ps[1..], names))
  }

  predicate KeyFiltersAmong(p: Property, names: set<string>)
    decreases p, 0
  {
    p.Keyed? ==> FiltersAmong(p.keyExpr, names)
  }

  /** A constant without an assignment in it has nothing to watch. */
  lemma {:induction false} ConstantsHaveNoWatches(e: Expr)
    requires IsConstant(e) && EffectFree(e, true)
    ensures ToWatch(e) == []
    decreases e, 1
  {
    match e
    case Unary(_, operand) => ConstantsHaveNoWatches(operand);
    case Binary(_, left, right) => ConstantsHaveNoWatches(left); ConstantsHaveNoWatches(right);
    case Filter(_, args) => ConstantListsHaveNoWatches(args);
    case Array(elements) => ConstantListsHaveNoWatches(elements);
    case ObjectLiteral(properties) => ConstantPropertiesHaveNoWatches(properties);
    case _ =>
  }

  lemma {:induction false} ConstantListsHaveNoWatches(es: seq<Expr>)
    requires AllConstant(es) && AllEffectFree(es, true)
    ensures ToWatchAll(es) == []
    decreases es, 0
  {
    if |es| > 0 {
      ConstantsHaveNoWatches(es[0]);
      ConstantListsHaveNoWatches(es[1..]);
    }
  }

  lemma {:induction false} ConstantPropertiesHaveNoWatches(ps: seq<Property>)
    requires PropertiesConstant(ps) && PropertiesEffectFree(ps, true)
    ensures ToWatchProperties(ps) == []
    decreases ps, 0
  {
    if |ps| > 0 {
      ConstantPropertyHasNoWatches(ps[0]);
      ConstantPropertiesHaveNoWatches(ps[1..]);
    }
  }

  lemma {:induction false} ConstantPropertyHasNoWatches(p: Property)
    requires IsConstant(p.value) && EffectFree(p.value, true) && KeyConstant(p) && KeyEffectFree(p, true)
    ensures ToWatch(p.value) == [] && ToWatchKey(p) == []
    decreases p, 0
  {
    match p
    case Fixed(_, value) => ConstantsHaveNoWatches(value);
    case Keyed(keyExpr, value) =>
      ConstantsHaveNoWatches(value);
      ConstantsHaveNoWatches(keyExpr);
  }
}
