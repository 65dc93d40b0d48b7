/** `ASTInterpreter` (src/core/parse/interpreter.ts): expressions become closures, many by a fast form. */
module Interpreter {
  import opened Basics
  import opened JsValues
  import opened Expressions

  type Code = (Env, Heap) -> Outcome

  datatype CompiledProperty =
    | FixedCode(key: string, value: Code)
    | KeyedCode(keyCode: Code, value: Code)

  /** `createPathGetter`: one closure for a whole dotted path, by its length. */
  function PathGetter(host: Host, path: seq<string>): Code
    requires |path| >= 1
  {
    if |path| == 1 then
      (env: Env, h: Heap) => Ok(Plain(Read(host, Base(env, path[0], h), path[0], h)), h)
    else if |path| == 2 then
      (env: Env, h: Heap) =>
        var value := Read(host, Base(env, path[0], h), path[0], h);
        Ok(Plain(Read(host, value, path[1], h)), h)
    else if |path| == 3 then
      (env: Env, h: Heap) =>
        var value := Read(host, Base(env, path[0], h), path[0], h);
        if Nullish(value) then Ok(Plain(Undefined), h) else
        var next := Read(host, value, path[1], h);
        Ok(Plain(Read(host, next, path[2], h)), h)
    else
      (env: Env, h: Heap) =>
        Ok(Plain(WalkPath(host, Read(host, Base(env, path[0], h), path[0], h), path[1..], h)), h)
  }

  /** The loop of the general getter, which stops at the first missing value. */
  function WalkPath(host: Host, value: Value, path: seq<string>, h: Heap): Value
    decreases |path|
  {
    if |path| == 0 then value
    else if Nullish(value) then Undefined
    else WalkPath(host, Read(host, value, path[0], h), path[1..], h)
  }

  function PathBinary(host: Host, op: BinaryOp, left: Expr, right: Expr): Option<Code> {
    if !op.Same? && !op.NotSame? then None else
    var leftPath := PathOf(left);
    var rightPath := PathOf(right);
    if leftPath.None? || rightPath.None? then None else
    var l := PathGetter(host, leftPath.value);
    var r := PathGetter(host, rightPath.value);
    Some((env: Env, h: Heap) =>
      var (a, h1) :- l(env, h);
      var (b, h2) :- r(env, h1);
      Ok(Plain(Bool(StrictlyEqual(a.value, b.value) == op.Same?)), h2))
  }

  function PathLogical(host: Host, op: LogicalOp, left: Expr, right: Expr): Option<Code> {
    var leftPath := PathOf(left);
    var rightPath := PathOf(right);
    if leftPath.None? || rightPath.None? then None else
    var l := PathGetter(host, leftPath.value);
    var r := PathGetter(host, rightPath.value);
    match op
    case And =>
      Some((env: Env, h: Heap) =>
        var (a, h1) :- l(env, h);
        if Truthy(a.value) then r(env, h1) else Ok(a, h1))
    case Or =>
      Some((env: Env, h: Heap) =>
        var (a, h1) :- l(env, h);
        if Truthy(a.value) then Ok(a, h1) else r(env, h1))
    case Coalesce =>
      Some((env: Env, h: Heap) =>
        var (a, h1) :- l(env, h);
        if Nullish(a.value) then r(env, h1) else Ok(a, h1))
  }

  /** `_recurse` */
  function Recurse(host: Host, e: Expr, asReference: bool, create: Create): Code
    decreases e, 2
  {
    if !asReference && create.No? && PathOf(e).Some? then PathGetter(host, PathOf(e).value) else
    match e
    case Literal(v) => (env: Env, h: Heap) => Ok(Wrap(asReference, v), h)
    case Unary(op, operand) =>
      var argument := Recurse(host, operand, false, No);
      (env: Env, h: Heap) =>
        var (a, h1) :- argument(env, h);
        Ok(Wrap(asReference, ApplyUnary(host, op, a.value, h1)), h1)
    case Binary(op, left, right) =>
      var fast := PathBinary(host, op, left, right);
      if !asReference && fast.Some? then fast.value
      else
        var l := Recurse(host, left, false, No);
        var r := Recurse(host, right, false, No);
        (env: Env, h: Heap) =>
          var (a, h1) :- l(env, h);
          var (b, h2) :- r(env, h1);
          Ok(Wrap(asReference, ApplyBinary(host, op, a.value, b.value, h1, h2)), h2)
    case Logical(op, left, right) =>
      var fast := PathLogical(host, op, left, right);
      if !asReference && fast.Some? then fast.value
      else
        var l := Recurse(host, left, false, No);
        var r := Recurse(host, right, false, No);
        (env: Env, h: Heap) =>
          var (a, h1) :- l(env, h);
          if Settled(op, a.value) then Ok(Wrap(asReference, a.value), h1) else
          var (b, h2) :- r(env, h1);
          Ok(Wrap(asReference, b.value), h2)
    case Conditional(test, alternate, consequent) =>
      var t := Recurse(host, test, false, No);
      var a := Recurse(host, alternate, false, No);
      var c := Recurse(host, consequent, false, No);
      (env: Env, h: Heap) =>
        var (tested, h1) :- t(env, h);
        var (r, h2) :- if Truthy(tested.value) then a(env, h1) else c(env, h1);
        Ok(Wrap(asReference, r.value), h2)
    case Identifier(name) =>
      (env: Env, h: Heap) => ReadIdentifier(host, name, asReference, create, env, h)
    case Member(subject, property) =>
      var left := Recurse(host, subject, false, if create.No? then No else Yes);
      (env: Env, h: Heap) =>
        var (s, h1) :- left(env, h);
        ReadMember(host, s.value, property, asReference, create, h1)
    case Computed(subject, index) =>
      var left := Recurse(host, subject, false, if create.No? then No else Yes);
      CompileComputed(host, left, Recurse(host, index, false, No), asReference, create)
    case Call(callee, args) =>
      if callee.Filter? then
        assert (callee decreases to callee.args);
        ThunkCall(host, callee.filter, RecurseAll(host, callee.args), RecurseAll(host, args), asReference)
      else CompileCall(host, callee, args, Recurse(host, callee, true, No), RecurseAll(host, args), asReference)
    case Filter(filter, args) =>
      CompileFilterCall(host, filter, args, RecurseAll(host, args), asReference)
    case Assignment(target, source) =>
      var left := Recurse(host, target, true, Leaf);
      var right := Recurse(host, source, false, No);
      (env: Env, h: Heap) =>
        var (l, h1) :- left(env, h);
        var lhs := AsReference(l);
        var (r, h2) :- right(env, h1);
        Store(asReference, lhs.context, lhs.name, r.value, h2)
    case Array(elements) =>
      var args := RecurseAll(host, elements);
      (env: Env, h: Heap) =>
        var (vs, h1) :- RunAll(args, env, h);
        var (v, h2) := Alloc(h1, ArraySlots(vs));
        Ok(Wrap(asReference, v), h2)
    case ObjectLiteral(properties) =>
      CompileObject(host, properties, CompileProperties(host, properties), asReference)
    case This => (env: Env, h: Heap) => Ok(Wrap(asReference, env.scope), h)
    case Locals => (env: Env, h: Heap) => Ok(Wrap(asReference, LocalsValue(env)), h)
    case AssignedValue => (env: Env, h: Heap) => Ok(Wrap(asReference, env.input), h)
    case Update(increment, prefix, argument) =>
      var reference := Recurse(host, argument, true, Leaf);
      (env: Env, h: Heap) =>
        var (a, h1) :- reference(env, h);
        var lhs := AsReference(a);
        Bump(host, increment, prefix, asReference, lhs.context, lhs.name, lhs.value, h1)
  }

  function RecurseAll(host: Host, es: seq<Expr>): (cs: seq<Code>)
    ensures |cs| == |es|
    decreases es, 0
  {
    if |es| == 0 then [] else [Recurse(host, es[0], false, No)] + RecurseAll(host, es[1..])
  }

  function RunAll(codes: seq<Code>, env: Env, h: Heap): Result<seq<Value>>
    decreases |codes|
  {
    if |codes| == 0 then Ok([], h) else
    var (a, h1) :- codes[0](env, h);
    var (rest, h2) :- RunAll(codes[1..], env, h1);
    Ok([a.value] + rest, h2)
  }

  function CompileComputed(host: Host, left: Code, right: Code, asReference: bool, create: Create): Code {
    (env: Env, h: Heap) =>
      var (s, h1) :- left(env, h);
      if Nullish(s.value) then Ok(Answered(asReference, s.value, None, Undefined), h1) else
      var (i, h2) :- right(env, h1);
      ReadComputed(host, s.value, host.text(i.value, h2), asReference, create, h2)
  }

  // ---- calls

  function CompileCall(host: Host, callee: Expr, args: seq<Expr>, right: Code, codes: seq<Code>,
      asReference: bool): Code
    requires |args| == |codes|
  {
    if !asReference && |args| == 2 && callee.Identifier? then IdentifierTwoArgCall(host, callee.name, args, codes)
    else if |args| <= 1 then SmallCall(host, right, codes, asReference)
    else if |args| == 2 then TwoArgCall(host, right, codes[0], codes[1], asReference)
    else VariadicCall(host, right, codes, asReference)
  }

  function IdentifierTwoArgCall(host: Host, name: string, args: seq<Expr>, codes: seq<Code>): Code
    requires |args| == |codes| == 2
  {
    var p0 := PathOf(args[0]);
    var p1 := PathOf(args[1]);
    if p0.Some? && |p0.value| == 1 && p1.Some? && |p1.value| == 1 then
      IdentifierCallOnNames(host, name, p0.value[0], p1.value[0])
    else
      (env: Env, h: Heap) =>
        var base := Base(env, name, h);
        if Nullish(base) then Ok(Plain(Undefined), h) else
        var f := Read(host, base, name, h);
        if !f.Func? then Ok(Plain(Undefined), h) else
        var (r0, h1) :- codes[0](env, h);
        var (r1, h2) :- codes[1](env, h1);
        InvokeTwo(host, f.id, base, r0.value, r1.value, false, h2)
  }

  /** `f(a, b)` where both arguments are plain names. */
  function IdentifierCallOnNames(host: Host, name: string, arg0: string, arg1: string): Code {
    (env: Env, h: Heap) =>
      if env.locals.None? then
        var base := env.scope;
        if Nullish(base) then Ok(Plain(Undefined), h) else
        var f := Read(host, base, name, h);
        if !f.Func? then Ok(Plain(Undefined), h) else
        InvokeTwo(host, f.id, base, Read(host, base, arg0, h), Read(host, base, arg1, h), false, h)
      else
        var calleeBase := Base(env, name, h);
        if Nullish(calleeBase) then Ok(Plain(Undefined), h) else
        var f := Read(host, calleeBase, name, h);
        if !f.Func? then Ok(Plain(Undefined), h) else
        InvokeTwo(host, f.id, calleeBase, Read(host, Base(env, arg0, h), arg0, h),
                  Read(host, Base(env, arg1, h), arg1, h), false, h)
  }

  /** Both arguments are known; function-valued ones are invoked, then the callee. */
  function InvokeTwo(host: Host, f: nat, context: Value, v0: Value, v1: Value, asReference: bool, h: Heap): Outcome {
    var (a0, h1) :- Force(host, v0, h);
    var (a1, h2) :- Force(host, v1, h1);
    var (v, h3) :- host.call(f, context, [a0, a1], h2);
    Ok(Wrap(asReference, v), h3)
  }

  /**
   * A call whose callee is a filter call in reference form: the callee's value is a thunk that runs the filter. With
   * one or two arguments of its own the thunk evaluates them, otherwise they are evaluated when it is made.
   */
  function ThunkCall(host: Host, filter: string, inner: seq<Code>, codes: seq<Code>, asReference: bool): Code {
    if |inner| == 1 then
      (env: Env, h: Heap) =>
        var (_, h1) :- RunArguments(host, codes, env, h);
        var (r0, h2) :- inner[0](env, h1);
        var (v, h3) :- host.filter(filter, [r0.value], h2);
        Ok(Wrap(asReference, v), h3)
    else if |inner| == 2 then
      (env: Env, h: Heap) =>
        var (_, h1) :- RunArguments(host, codes, env, h);
        var (r0, h2) :- inner[0](env, h1);
        var (r1, h3) :- inner[1](env, h2);
        var (v, h4) :- host.filter(filter, [r0.value, r1.value], h3);
        Ok(Wrap(asReference, v), h4)
    else
      (env: Env, h: Heap) =>
        var (vs, h1) :- RunAll(inner, env, h);
        var (_, h2) :- RunArguments(host, codes, env, h1);
        var (v, h3) :- host.filter(filter, vs, h2);
        Ok(Wrap(asReference, v), h3)
  }

  /** The arguments as the call forms for one, two and more of them evaluate and invoke them. */
  function RunArguments(host: Host, codes: seq<Code>, env: Env, h: Heap): Result<seq<Value>> {
    if |codes| == 1 then
      var (r, h1) :- codes[0](env, h);
      var (a, h2) :- Force(host, r.value, h1);
      Ok([a], h2)
    else if |codes| == 2 then
      var (r0, h1) :- codes[0](env, h);
      var (r1, h2) :- codes[1](env, h1);
      var (a0, h3) :- Force(host, r0.value, h2);
      var (a1, h4) :- Force(host, r1.value, h3);
      Ok([a0, a1], h4)
    else RunForced(host, codes, env, h)
  }

  function SmallCall(host: Host, callee: Code, codes: seq<Code>, asReference: bool): Code
    requires |codes| <= 1
  {
    if |codes| == 1 then
      (env: Env, h: Heap) =>
        var (c, h1) :- callee(env, h);
        var f := AsReference(c);
        if !f.value.Func? then Ok(Wrap(asReference, Undefined), h1) else
        var (r, h2) :- codes[0](env, h1);
        var (a, h3) :- Force(host, r.value, h2);
        var (v, h4) :- host.call(f.value.id, f.context, [a], h3);
        Ok(Wrap(asReference, v), h4)
    else
      (env: Env, h: Heap) =>
        var (c, h1) :- callee(env, h);
        var f := AsReference(c);
        if !f.value.Func? then Ok(Wrap(asReference, Undefined), h1) else
        var (v, h2) :- host.call(f.value.id, f.context, [], h1);
        Ok(Wrap(asReference, v), h2)
  }

  function TwoArgCall(host: Host, callee: Code, arg0: Code, arg1: Code, asReference: bool): Code {
    (env: Env, h: Heap) =>
      var (c, h1) :- callee(env, h);
      var f := AsReference(c);
      if !f.value.Func? then Ok(Wrap(asReference, Undefined), h1) else
      var (r0, h2) :- arg0(env, h1);
      var (r1, h3) :- arg1(env, h2);
      InvokeTwo(host, f.value.id, f.context, r0.value, r1.value, asReference, h3)
  }

  function VariadicCall(host: Host, callee: Code, codes: seq<Code>, asReference: bool): Code {
    (env: Env, h: Heap) =>
      var (c, h1) :- callee(env, h);
      var f := AsReference(c);
      if !f.value.Func? then Ok(Wrap(asReference, Undefined), h1) else
      var (vs, h2) :- RunForced(host, codes, env, h1);
      var (v, h3) :- host.call(f.value.id, f.context, vs, h2);
      Ok(Wrap(asReference, v), h3)
  }

  function RunForced(host: Host, codes: seq<Code>, env: Env, h: Heap): Result<seq<Value>>
    decreases |codes|
  {
    if |codes| == 0 then Ok([], h) else
    var (a, h1) :- codes[0](env, h);
    var (v, h2) :- Force(host, a.value, h1);
    var (rest, h3) :- RunForced(host, codes[1..], env, h2);
    Ok([v] + rest, h3)
  }

  function CompileFilterCall(host: Host, filter: string, args: seq<Expr>, codes: seq<Code>, asReference: bool): Code
    requires |args| == |codes|
  {
    if asReference && 1 <= |args| <= 2 then (env: Env, h: Heap) => Ok(UNRUN_FILTER, h)
    else if |args| == 1 then
      var p := PathOf(args[0]);
      if p.Some? && |p.value| == 1 then
        (env: Env, h: Heap) =>
          var (v, h1) :- host.filter(filter, [Read(host, Base(env, p.value[0], h), p.value[0], h)], h);
          Ok(Plain(v), h1)
      else
        (env: Env, h: Heap) =>
          var (r, h1) :- codes[0](env, h);
          var (v, h2) :- host.filter(filter, [r.value], h1);
          Ok(Plain(v), h2)
    else if |args| == 2 then
      (env: Env, h: Heap) =>
        var (r0, h1) :- codes[0](env, h);
        var (r1, h2) :- codes[1](env, h1);
        var (v, h3) :- host.filter(filter, [r0.value, r1.value], h2);
        Ok(Plain(v), h3)
    else
      (env: Env, h: Heap) =>
        var (vs, h1) :- RunAll(codes, env, h);
        if asReference then Ok(UNRUN_FILTER, h1) else
        var (v, h2) :- host.filter(filter, vs, h1);
        Ok(Plain(v), h2)
  }

  // ---- object literals

  predicate AllFixed(ps: seq<Property>) {
    forall p <- ps :: p.Fixed?
  }

  function CompileObject(host: Host, ps: seq<Property>, codes: seq<CompiledProperty>, asReference: bool): Code
    requires |codes| == |ps|
  {
    if !asReference && 1 <= |ps| <= 3 && AllFixed(ps) then
      if |ps| == 1 then SinglePropertyObject(ps[0].key, codes[0].value)
      else if |ps| == 2 then TwoPropertyObject(ps[0].key, ps[1].key, codes[0].value, codes[1].value)
      else
        var p0 := PathOf(ps[0].value);
        var p1 := PathOf(ps[1].value);
        var p2 := PathOf(ps[2].value);
        if IsProjection(p0, p1, p2) then
          Projection(host, ps[0].key, ps[1].key, ps[2].key, p0.value[0], p0.value[1], p1.value[1], p2.value[1])
        else
          ThreePropertyObject(ps[0].key, ps[1].key, ps[2].key, codes[0].value, codes[1].value, codes[2].value)
    else
      (env: Env, h: Heap) =>
        var (slots, h1) :- RunProperties(host, codes, env, h, map[]);
        var (v, h2) := Alloc(h1, slots);
        Ok(Wrap(asReference, v), h2)
  }

  function SinglePropertyObject(key: string, value: Code): Code {
    (env: Env, h: Heap) =>
      var (v, h1) :- value(env, h);
      var (o, h2) := Alloc(h1, map[key := v.value]);
      Ok(Plain(o), h2)
  }

  function TwoPropertyObject(key0: string, key1: string, value0: Code, value1: Code): Code {
    (env: Env, h: Heap) =>
      var (v0, h1) :- value0(env, h);
      var (v1, h2) :- value1(env, h1);
      var (o, h3) := Alloc(h2, map[key0 := v0.value][key1 := v1.value]);
      Ok(Plain(o), h3)
  }

  function ThreePropertyObject(key0: string, key1: string, key2: string,
                               value0: Code, value1: Code, value2: Code): Code {
    (env: Env, h: Heap) =>
      var (v0, h1) :- value0(env, h);
      var (v1, h2) :- value1(env, h1);
      var (v2, h3) :- value2(env, h2);
      var (o, h4) := Alloc(h3, map[key0 := v0.value][key1 := v1.value][key2 := v2.value]);
      Ok(Plain(o), h4)
  }

  /** Three two-step paths out of the same name. */
  predicate IsProjection(p0: Option<seq<string>>, p1: Option<seq<string>>, p2: Option<seq<string>>) {
    p0.Some? && |p0.value| == 2 && p1.Some? && |p1.value| == 2 && p2.Some? && |p2.value| == 2
    && p0.value[0] == p1.value[0] == p2.value[0]
  }

  /** `compileObjectPathProjection`: the common source is read once. */
  function Projection(host: Host, key0: string, key1: string, key2: string,
                      source: string, field0: string, field1: string, field2: string): Code {
    (env: Env, h: Heap) =>
      var s := Read(host, Base(env, source, h), source, h);
      var slots :=
        if Nullish(s) then map[key0 := Undefined][key1 := Undefined][key2 := Undefined]
        else map[key0 := Read(host, s, field0, h)][key1 := Read(host, s, field1, h)][key2 := Read(host, s, field2, h)];
      var (o, h1) := Alloc(h, slots);
      Ok(Plain(o), h1)
  }

  function CompileProperties(host: Host, ps: seq<Property>): (cs: seq<CompiledProperty>)
    ensures |cs| == |ps|
    decreases ps, 0
  {
    if |ps| == 0 then [] else [CompileProperty(host, ps[0])] + CompileProperties(host, ps[1..])
  }

  function CompileProperty(host: Host, p: Property): CompiledProperty
    decreases p, 0
  {
    match p
    case Fixed(key, value) => FixedCode(key, Recurse(host, value, false, No))
    case Keyed(keyExpr, value) => KeyedCode(Recurse(host, keyExpr, false, No), Recurse(host, value, false, No))
  }

  function RunProperties(host: Host, ps: seq<CompiledProperty>, env: Env, h: Heap, slots: Slots): Result<Slots>
    decreases |ps|
  {
    if |ps| == 0 then Ok(slots, h) else
    match ps[0]
    case FixedCode(key, value) =>
      var (v, h1) :- value(env, h);
      RunProperties(host, ps[1..], env, h1, slots[key := v.value])
    case KeyedCode(keyCode, value) =>
      var (k, h1) :- keyCode(env, h);
      var (v, h2) :- value(env, h1);
      RunProperties(host, ps[1..], env, h2, slots[host.text(k.value, h1) := v.value])
  }

  // ---- programs

  /** `_compile`: no statement, one, or a loop that keeps the last value. */
  function Compile(host: Host, body: seq<Expr>): Code {
    var expressions := RecurseAll(host, body);
    if |body| == 0 then (env: Env, h: Heap) => Ok(Plain(Undefined), h)
    else if |body| == 1 then expressions[0]
    else (env: Env, h: Heap) => RunBody(expressions, env, h, Plain(Undefined))
  }

  function RunBody(codes: seq<Code>, env: Env, h: Heap, last: Answer): Outcome
    decreases |codes|
  {
    if |codes| == 0 then Ok(last, h) else
    var (a, h1) :- codes[0](env, h);
    RunBody(codes[1..], env, h1, a)
  }
}
