/** What the constant flag and the watch list say about the nodes of an expression. */
module WatchCoverage {
  import opened Basics
  import opened JsValues
  import opened Expressions
  import opened WatchAnalysis

  // ---- the nodes of an expression

  /** The expressions a node is made of. */
  function Parts(e: Expr): (r: seq<Expr>)
    ensures forall c | c in r :: (e decreases to c)
  {
    match e
    case Unary(_, operand) => [operand]
    case Binary(_, left, right) => [left, right]
    case Logical(_, left, right) => [left, right]
    case Conditional(test, alternate, consequent) => [test, alternate, consequent]
    case Member(subject, _) => [subject]
    case Computed(subject, index) => [subject, index]
    case Call(callee, args) => [callee] + args
    case Filter(_, args) => args
    case Assignment(target, source) => [target, source]
    case Array(elements) => elements
    case ObjectLiteral(properties) => PropertyParts(properties)
    case Update(_, _, argument) => [argument]
    case _ => []
  }

  function PropertyParts(ps: seq<Property>): (r: seq<Expr>)
    ensures forall c | c in r :: (ps decreases to c)
  {
    if |ps| == 0 then []
    else
      assert (ps decreases to ps[0]) && (ps decreases to ps[1..]);
      assert (ps[0] decreases to ps[0].value);
      (if ps[0].Keyed? then [ps[0].value, ps[0].keyExpr] else [ps[0].value]) + PropertyParts(ps[1..])
  }

  /** The node is the expression or somewhere inside it. */
  ghost predicate Occurs(n: Expr, e: Expr)
    decreases e
  {
    n == e || exists c | c in Parts(e) :: Occurs(n, c)
  }

  /** Not within a part that is constant. */
  ghost predicate Active(n: Expr, e: Expr)
    decreases e
  {
    !IsConstant(e) && (n == e || exists c | c in Parts(e) :: Active(n, c))
  }

  /** Nodes whose value does not come from their parts alone. */
  predicate Free(n: Expr) {
    n.Identifier? || n.This? || n.Locals? || n.AssignedValue? || n.Call? || n.Update?
  }

  /**
   * Nodes that look something up, call, write, or decide which of their parts runs. Operators, filters and literals
   * follow from their parts; `this`, the locals and the assigned value stand for themselves.
   */
  predicate Source(n: Expr) {
    || n.Identifier? || n.Member? || n.Computed? || n.Call? || n.Assignment? || n.Update?
    || n.Logical? || n.Conditional?
  }

  // ---- the analysis, node by node

  lemma {:induction false} AllConstantIff(es: seq<Expr>)
    ensures AllConstant(es) <==> forall c | c in es :: IsConstant(c)
    decreases |es|
  {
    if |es| > 0 {
      AllConstantIff(es[1..]);
      assert es[0] in es && forall c :: c in es <==> c == es[0] || c in es[1..];
      assert AllConstant(es) <==> IsConstant(es[0]) && AllConstant(es[1..]);
    }
  }

  lemma {:induction false} PropertiesConstantIff(ps: seq<Property>)
    ensures PropertiesConstant(ps) <==> forall c | c in PropertyParts(ps) :: IsConstant(c)
    decreases |ps|
  {
    if |ps| > 0 {
      var first := if ps[0].Keyed? then [ps[0].value, ps[0].keyExpr] else [ps[0].value];
      PropertiesConstantIff(ps[1..]);
      assert PropertyParts(ps) == first + PropertyParts(ps[1..]);
      assert forall c :: c in PropertyParts(ps) <==> c in first || c in PropertyParts(ps[1..]);
      assert ps[0].value in first && (ps[0].Keyed? ==> ps[0].keyExpr in first);
    }
  }

  lemma ConstantByParts(e: Expr)
    ensures IsConstant(e) <==> !Free(e) && forall c | c in Parts(e) :: IsConstant(c)
  {
    match e
    case Unary(_, operand) => assert operand in Parts(e);
    case Binary(_, left, right) => assert left in Parts(e) && right in Parts(e);
    case Logical(_, left, right) => assert left in Parts(e) && right in Parts(e);
    case Conditional(test, alternate, consequent) =>
      assert test in Parts(e) && alternate in Parts(e) && consequent in Parts(e);
    case Member(subject, _) => assert subject in Parts(e);
    case Computed(subject, index) => assert subject in Parts(e) && index in Parts(e);
    case Assignment(target, source) => assert target in Parts(e) && source in Parts(e);
    case Filter(_, args) => AllConstantIff(args);
    case Array(elements) => AllConstantIff(elements);
    case ObjectLiteral(properties) => PropertiesConstantIff(properties);
    case _ =>
  }

  lemma {:induction false} WatchAllIff(es: seq<Expr>, w: Expr)
    ensures w in ToWatchAll(es) <==> exists c | c in es :: w in ToWatch(c)
    decreases |es|
  {
    if |es| > 0 {
      WatchAllIff(es[1..], w);
      assert es[0] in es && forall c :: c in es <==> c == es[0] || c in es[1..];
      assert w in ToWatchAll(es) <==> w in ToWatch(es[0]) || w in ToWatchAll(es[1..]);
    }
  }

  lemma {:induction false} WatchPropertiesIff(ps: seq<Property>, w: Expr)
    ensures w in ToWatchProperties(ps) <==> exists c | c in PropertyParts(ps) :: w in ToWatch(c)
    decreases |ps|
  {
    if |ps| > 0 {
      var first := if ps[0].Keyed? then [ps[0].value, ps[0].keyExpr] else [ps[0].value];
      WatchPropertiesIff(ps[1..], w);
      assert PropertyParts(ps) == first + PropertyParts(ps[1..]);
      assert forall c :: c in PropertyParts(ps) <==> c in first || c in PropertyParts(ps[1..]);
      assert ps[0].value in first && (ps[0].Keyed? ==> ps[0].keyExpr in first);
      assert w in ToWatchProperties(ps)
        <==> w in ToWatch(ps[0].value) || w in ToWatchKey(ps[0]) || w in ToWatchProperties(ps[1..]);
    }
  }

  /** Operators, filters and literals watch what their parts watch; nothing else does. */
  lemma WatchesByParts(e: Expr, w: Expr)
    requires !Source(e)
    ensures w in ToWatch(e) <==> exists c | c in Parts(e) :: w in ToWatch(c)
  {
    match e
    case Unary(_, operand) => assert operand in Parts(e);
    case Binary(_, left, right) => assert left in Parts(e) && right in Parts(e);
    case Filter(_, args) => WatchAllIff(args, w);
    case Array(elements) => WatchAllIff(elements, w);
    case ObjectLiteral(properties) => WatchPropertiesIff(properties, w);
    case _ =>
  }

  // ---- what follows for whole expressions

  /** Main result: an expression is constant iff no node of it reads the scope or the locals, calls or updates. */
  lemma {:induction false} ConstantIff(e: Expr)
    ensures IsConstant(e) <==> forall n | Occurs(n, e) :: !Free(n)
    decreases e
  {
    ConstantByParts(e);
    forall c | c in Parts(e) ensures IsConstant(c) <==> forall n | Occurs(n, c) :: !Free(n) { ConstantIff(c); }
    if IsConstant(e) {
      forall n | Occurs(n, e) ensures !Free(n) {
        if n != e {
          var c :| c in Parts(e) && Occurs(n, c);
        }
      }
    } else if Free(e) {
      assert Occurs(e, e);
    } else {
      var c :| c in Parts(e) && !IsConstant(c);
      var n :| Occurs(n, c) && Free(n);
      assert Occurs(n, e);
    }
  }

  lemma {:induction false} ActiveOccurs(n: Expr, e: Expr)
    requires Active(n, e)
    ensures Occurs(n, e)
    decreases e
  {
    if n != e {
      var c :| c in Parts(e) && Active(n, c);
      ActiveOccurs(n, c);
    }
  }

  /** Main result: whatever looks up, calls, writes or decides, outside constants, lies within a watched node. */
  lemma {:induction false} SourcesAreWatched(n: Expr, e: Expr)
    requires Active(n, e) && Source(n)
    ensures exists w | w in ToWatch(e) :: Occurs(n, w)
    decreases e
  {
    if Source(e) {
      ActiveOccurs(n, e);
      assert e in ToWatch(e);
    } else {
      var c :| c in Parts(e) && Active(n, c);
      SourcesAreWatched(n, c);
      var w :| w in ToWatch(c) && Occurs(n, w);
      WatchesByParts(e, w);
    }
  }

  /** And nothing is watched in vain: a watch is such a node of the expression, and constant only if it assigns. */
  lemma {:induction false} WatchesAreSources(w: Expr, e: Expr)
    requires w in ToWatch(e)
    ensures Occurs(w, e) && Source(w) && (IsConstant(w) ==> w.Assignment?)
    decreases e
  {
    if !Source(e) {
      WatchesByParts(e, w);
      var c :| c in Parts(e) && w in ToWatch(c);
      WatchesAreSources(w, c);
    }
  }

  /** A binding of `[f(a)]` has one input, the call. */
  lemma CallInLiteralIsAnInput(f: string, a: string)
    ensures var call := Call(Identifier(f), [Identifier(a)]); Inputs(Array([call])) == Some([call])
  {
    var call := Call(Identifier(f), [Identifier(a)]);
    assert [call][1..] == [];
    assert ToWatchAll([call]) == ToWatch(call) + ToWatchAll([call][1..]) == [call];
  }
}
