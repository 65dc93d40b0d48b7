/** The expression AST after parsing (src/core/parse/ast). */
module Expressions {
  import opened Basics
  import opened JsValues

  datatype UnaryOp = Plus | Minus | Not
  datatype BinaryOp = Arith(arith: ArithOp) | Rel(rel: RelOp) | Same | NotSame | Loose | NotLoose
  datatype LogicalOp = And | Or | Coalesce

  datatype Expr =
    | Literal(literal: Primitive)
    | Unary(uop: UnaryOp, operand: Expr)
    | Binary(bop: BinaryOp, left: Expr, right: Expr)
    | Logical(lop: LogicalOp, left: Expr, right: Expr)
    | Conditional(test: Expr, alternate: Expr, consequent: Expr)
    | Identifier(name: string)
    | Member(subject: Expr, property: string)
    | Computed(subject: Expr, index: Expr)
    | Call(callee: Expr, args: seq<Expr>)
    | Filter(filter: string, args: seq<Expr>)
    | Assignment(target: Expr, source: Expr)
    | Array(elements: seq<Expr>)
    | ObjectLiteral(properties: seq<Property>)
    | This
    | Locals
    | AssignedValue
    | Update(increment: bool, prefix: bool, argument: Expr)

  datatype Property =
    | Fixed(key: string, value: Expr)
    | Keyed(keyExpr: Expr, value: Expr)

  /** The names of a dotted path `a.b.c`, if the expression is one. */
  function PathOf(e: Expr): (p: Option<seq<string>>)
    ensures p.Some? ==> |p.value| >= 1
  {
    match e
    case Identifier(name) => Some([name])
    case Member(subject, property) =>
      var rest := PathOf(subject);
      if rest.Some? then Some(rest.value + [property]) else None
    case _ => None
  }

  /** The scope, the locals object and the value being assigned, as every closure receives them. */
  datatype Env = Env(scope: Value, locals: Option<nat>, input: Value)

  /** What a closure hands back: a plain value, or a `{ context, name, value }` record. */
  datatype Answer =
    | Plain(value: Value)
    | Reference(context: Value, name: Option<string>, value: Value)

  type Outcome = Result<Answer>

  /**
   * A filter call in reference form: a record whose value is a function that runs the filter. Only a call looks at it,
   * and `ThunkCall` says what it does then, so no value stands for it here.
   */
  const UNRUN_FILTER := Reference(Undefined, None, Undefined)

  datatype Create = No | Yes | Leaf

  function Wrap(asReference: bool, v: Value): Answer {
    if asReference then Reference(Undefined, None, v) else Plain(v)
  }

  function Answered(asReference: bool, context: Value, name: Option<string>, v: Value): Answer {
    if asReference then Reference(context, name, v) else Plain(v)
  }

  function LocalsValue(env: Env): Value {
    match env.locals
    case None => Undefined
    case Some(r) => Obj(r)
  }

  /** `locals && name in locals ? locals : scope` */
  function Base(env: Env, name: string, h: Heap): Value {
    if env.locals.Some? && name in SlotsOf(h, env.locals.value) then Obj(env.locals.value) else env.scope
  }

  function ApplyUnary(host: Host, op: UnaryOp, v: Value, h: Heap): Value {
    match op
    case Plus => if v.Undefined? then Num(Zero(false)) else Num(host.number(v, h))
    case Minus => if v.Undefined? then Num(Zero(true)) else Num(Negate(host.number(v, h)))
    case Not => Bool(!Truthy(v))
  }

  function Negate(n: Number): Number {
    match n
    case NaN => NaN
    case Infinite(neg) => Infinite(!neg)
    case Zero(neg) => Zero(!neg)
    case NonZero(r) => NonZero(-r)
  }

  function OrZero(host: Host, v: Value, h: Heap): Number {
    if v.Undefined? then Zero(false) else host.number(v, h)
  }

  function ApplyPlus(host: Host, a: Value, b: Value, h: Heap): Value {
    if a.Undefined? || a.Obj? then b
    else if b.Undefined? || b.Obj? then a
    else if a.Num? && b.Num? then Num(host.arith(Add, a.n, b.n))
    else Str(host.text(a, h) + host.text(b, h))
  }

  /** The operator turns its left operand into a number before the right one is evaluated. */
  predicate Early(op: BinaryOp) { op.Arith? && !op.arith.Add? && !op.arith.Sub? }

  /** `early` is the heap in which the right operand is evaluated, `h` the one after it. */
  function ApplyBinary(host: Host, op: BinaryOp, a: Value, b: Value, early: Heap, h: Heap): Value {
    match op
    case Arith(Add) => ApplyPlus(host, a, b, h)
    case Arith(Sub) => Num(host.arith(Sub, OrZero(host, a, h), OrZero(host, b, h)))
    case Arith(o) => Num(host.arith(o, host.number(a, early), host.number(b, h)))
    case Rel(o) => Bool(host.relation(o, a, b, h))
    case Same => Bool(StrictlyEqual(a, b))
    case NotSame => Bool(!StrictlyEqual(a, b))
    case Loose => Bool(LooselyEqual(host, a, b, h))
    case NotLoose => Bool(!LooselyEqual(host, a, b, h))
  }

  predicate LooselyEqual(host: Host, a: Value, b: Value, h: Heap) {
    if a.Obj? && b.Obj? then a == b
    else if Nullish(a) || Nullish(b) then Nullish(a) && Nullish(b)
    else host.looselyEqual(a, b, h)
  }

  /** The left operand alone decides whether the right one is evaluated. */
  predicate Settled(op: LogicalOp, left: Value) {
    match op
    case And => !Truthy(left)
    case Or => Truthy(left)
    case Coalesce => !Nullish(left)
  }

  /** `bag[name] = rhs` at the end of an assignment closure. */
  function Store(asReference: bool, context: Value, name: Option<string>, v: Value, h: Heap): Outcome {
    if name.None? then Ok(Wrap(asReference, v), h)
    else if Nullish(context) then Threw(h)
    else Ok(Wrap(asReference, v), Write(context, name.value, v, h))
  }

  /** The write of `++` and `--`; an empty name is falsy and is skipped. */
  function Bump(host: Host, increment: bool, prefix: bool, asReference: bool,
                context: Value, name: Option<string>, v: Value, h: Heap): Outcome {
    if Nullish(context) then Threw(h) else
    var before := host.number(v, h);
    var after := host.arith(if increment then Add else Sub, before, NonZero(1.0));
    var h' := if name.Some? && name.value != "" then Write(context, name.value, Num(after), h) else h;
    Ok(Wrap(asReference, Num(if prefix then after else before)), h')
  }

  /** A missing intermediate of an assignment path becomes a fresh empty object. */
  function CreateSlot(base: Value, key: string, h: Heap): Heap {
    if base.Obj? then
      var (fresh_, h') := Alloc(h, map[]);
      Write(base, key, fresh_, h')
    else h
  }

  function ReadIdentifier(host: Host, name: string, asReference: bool, create: Create, env: Env, h: Heap): Outcome {
    var base := Base(env, name, h);
    var h' := if create.Yes? && Nullish(Read(host, base, name, h)) then CreateSlot(base, name, h) else h;
    var v := Read(host, base, name, h');
    Ok(Answered(asReference, base, Some(name), v), h')
  }

  function ReadMember(host: Host, subject: Value, name: string, asReference: bool, create: Create, h: Heap): Outcome {
    var h' := if create.Yes? && Truthy(subject) && Nullish(Read(host, subject, name, h))
              then CreateSlot(subject, name, h) else h;
    var v := Read(host, subject, name, h');
    Ok(Answered(asReference, subject, Some(name), v), h')
  }

  function ReadComputed(host: Host, subject: Value, name: string, asReference: bool, create: Create, h: Heap): Outcome {
    var h' := if create.Yes? && !Truthy(Read(host, subject, name, h)) then CreateSlot(subject, name, h) else h;
    var v := Read(host, subject, name, h');
    Ok(Answered(asReference, subject, Some(name), v), h')
  }

  /** `getExpressionReference`: a plain answer reads as `{}`. */
  function AsReference(a: Answer): (r: Answer)
    ensures r.Reference?
  {
    if a.Reference? then a else Reference(Undefined, None, Undefined)
  }

  /** `isFunction(v) ? v() : v` */
  function Force(host: Host, v: Value, h: Heap): Result<Value> {
    if v.Func? then host.call(v.id, Undefined, [], h) else Ok(v, h)
  }

  function ForceAll(host: Host, vs: seq<Value>, h: Heap): Result<seq<Value>> {
    if |vs| == 0 then Ok([], h) else
    var (v, h1) :- Force(host, vs[0], h);
    var (rest, h2) :- ForceAll(host, vs[1..], h1);
    Ok([v] + rest, h2)
  }
}
