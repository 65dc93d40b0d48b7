/**
 * What an expression means: a structural evaluator that knows only the general form of every
 * node, with one rule for member reads, one for calls and one for object literals.
 */
module Semantics {
  import opened Basics
  import opened JsValues
  import opened Expressions

  function Eval(host: Host, e: Expr, asReference: bool, create: Create, env: Env, h: Heap): (o: Outcome)
    ensures o.Ok? ==> o.value.Reference? == asReference
    decreases e, 1
  {
    match e
    case Literal(v) => Ok(Wrap(asReference, v), h)
    case Unary(op, operand) =>
      var (a, h1) :- Eval(host, operand, false, No, env, h);
      Ok(Wrap(asReference, ApplyUnary(host, op, a.value, h1)), h1)
    case Binary(op, left, right) =>
      var (l, h1) :- Eval(host, left, false, No, env, h);
      var (r, h2) :- Eval(host, right, false, No, env, h1);
      Ok(Wrap(asReference, ApplyBinary(host, op, l.value, r.value, h1, h2)), h2)
    case Logical(op, left, right) =>
      var (l, h1) :- Eval(host, left, false, No, env, h);
      if Settled(op, l.value) then Ok(Wrap(asReference, l.value), h1) else
      var (r, h2) :- Eval(host, right, false, No, env, h1);
      Ok(Wrap(asReference, r.value), h2)
    case Conditional(test, alternate, consequent) =>
      var (t, h1) :- Eval(host, test, false, No, env, h);
      var (r, h2) :- if Truthy(t.value) then Eval(host, alternate, false, No, env, h1)
                     else Eval(host, consequent, false, No, env, h1);
      Ok(Wrap(asReference, r.value), h2)
    case Identifier(name) => ReadIdentifier(host, name, asReference, create, env, h)
    case Member(subject, property) =>
      var (s, h1) :- Eval(host, subject, false, if create.No? then No else Yes, env, h);
      ReadMember(host, s.value, property, asReference, create, h1)
    case Computed(subject, index) =>
      var (s, h1) :- Eval(host, subject, false, if create.No? then No else Yes, env, h);
      if Nullish(s.value) then Ok(Answered(asReference, s.value, None, Undefined), h1) else
      var (i, h2) :- Eval(host, index, false, No, env, h1);
      ReadComputed(host, s.value, host.text(i.value, h2), asReference, create, h2)
    case Call(callee, args) =>
      if callee.Filter? then EvalThunkCall(host, e, asReference, env, h) else
      var (f, h1) :- Eval(host, callee, true, No, env, h);
      if !f.value.Func? then Ok(Wrap(asReference, Undefined), h1) else
      var (vs, h2) :- EvalCallArgs(host, args, env, h1);
      var (v, h3) :- host.call(f.value.id, f.context, vs, h2);
      Ok(Wrap(asReference, v), h3)
    case Filter(filter, args) =>
      if asReference && 1 <= |args| <= 2 then Ok(UNRUN_FILTER, h) else
      var (vs, h1) :- EvalAll(host, args, env, h);
      if asReference then Ok(UNRUN_FILTER, h1) else
      var (v, h2) :- host.filter(filter, vs, h1);
      Ok(Plain(v), h2)
    case Assignment(target, source) =>
      var (t, h1) :- Eval(host, target, true, Leaf, env, h);
      var (s, h2) :- Eval(host, source, false, No, env, h1);
      Store(asReference, t.context, t.name, s.value, h2)
    case Array(elements) =>
      var (vs, h1) :- EvalAll(host, elements, env, h);
      var (v, h2) := Alloc(h1, ArraySlots(vs));
      Ok(Wrap(asReference, v), h2)
    case ObjectLiteral(properties) =>
      var (slots, h1) :- EvalProperties(host, properties, env, h, map[]);
      var (v, h2) := Alloc(h1, slots);
      Ok(Wrap(asReference, v), h2)
    case This => Ok(Wrap(asReference, env.scope), h)
    case Locals => Ok(Wrap(asReference, LocalsValue(env)), h)
    case AssignedValue => Ok(Wrap(asReference, env.input), h)
    case Update(increment, prefix, argument) =>
      var (a, h1) :- Eval(host, argument, true, Leaf, env, h);
      Bump(host, increment, prefix, asReference, a.context, a.name, a.value, h1)
  }

  /** In reference form a filter call is a function that runs the filter and ignores the arguments it is given. */
  function EvalThunkCall(host: Host, e: Expr, asReference: bool, env: Env, h: Heap): (o: Outcome)
    requires e.Call? && e.callee.Filter?
    ensures o.Ok? ==> o.value.Reference? == asReference
    decreases e, 0
  {
    var inner := e.callee.args;
    assert (e.callee decreases to inner);
    if 1 <= |inner| <= 2 then
      var (_, h1) :- EvalCallArgs(host, e.args, env, h);
      var (vs, h2) :- EvalAll(host, inner, env, h1);
      var (v, h3) :- host.filter(e.callee.filter, vs, h2);
      Ok(Wrap(asReference, v), h3)
    else
      var (vs, h1) :- EvalAll(host, inner, env, h);
      var (_, h2) :- EvalCallArgs(host, e.args, env, h1);
      var (v, h3) :- host.filter(e.callee.filter, vs, h2);
      Ok(Wrap(asReference, v), h3)
  }

  /** From left to right. */
  function EvalAll(host: Host, es: seq<Expr>, env: Env, h: Heap): Result<seq<Value>>
    decreases es, 0
  {
    if |es| == 0 then Ok([], h) else
    var (a, h1) :- Eval(host, es[0], false, No, env, h);
    var (rest, h2) :- EvalAll(host, es[1..], env, h1);
    Ok([a.value] + rest, h2)
  }

  /** From left to right, each function-valued argument invoked as soon as it is known. */
  function EvalForced(host: Host, es: seq<Expr>, env: Env, h: Heap): Result<seq<Value>>
    decreases es, 0
  {
    if |es| == 0 then Ok([], h) else
    var (a, h1) :- Eval(host, es[0], false, No, env, h);
    var (v, h2) :- Force(host, a.value, h1);
    var (rest, h3) :- EvalForced(host, es[1..], env, h2);
    Ok([v] + rest, h3)
  }

  /** A call with exactly two arguments evaluates both before it invokes either. */
  function EvalCallArgs(host: Host, es: seq<Expr>, env: Env, h: Heap): Result<seq<Value>>
    decreases es, 1
  {
    if |es| != 2 then EvalForced(host, es, env, h) else
    var (vs, h1) :- EvalAll(host, es, env, h);
    ForceAll(host, vs, h1)
  }

  /** Properties from left to right; the new object is out of reach until it is complete. */
  function EvalProperties(host: Host, ps: seq<Property>, env: Env, h: Heap, slots: Slots): Result<Slots>
    decreases ps, 0
  {
    if |ps| == 0 then Ok(slots, h) else
    var (key, h1) :- EvalKey(host, ps[0], env, h);
    assert (ps[0] decreases to ps[0].value);
    var (v, h2) :- Eval(host, ps[0].value, false, No, env, h1);
    EvalProperties(host, ps[1..], env, h2, slots[key := v.value])
  }

  function EvalKey(host: Host, p: Property, env: Env, h: Heap): Result<string>
    decreases p, 0
  {
    match p
    case Fixed(key, _) => Ok(key, h)
    case Keyed(keyExpr, _) =>
      var (k, h1) :- Eval(host, keyExpr, false, No, env, h);
      Ok(host.text(k.value, h1), h1)
  }

  /** A program runs its statements in order; its value is the last one's. */
  function EvalProgram(host: Host, body: seq<Expr>, env: Env, h: Heap): Outcome
    decreases |body|
  {
    if |body| == 0 then Ok(Plain(Undefined), h)
    else if |body| == 1 then Eval(host, body[0], false, No, env, h)
    else
      var (_, h1) :- Eval(host, body[0], false, No, env, h);
      EvalProgram(host, body[1..], env, h1)
  }
}
