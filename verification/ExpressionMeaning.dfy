/**
 * What expressions come out as, said of the values and heaps that an evaluation starts from and ends with. Whatever
 * the evaluator and the compiler share, these lemmas fix (src/core/parse/interpreter.ts:724-1330).
 */
module ExpressionMeaning {
  import opened Basics
  import opened JsValues
  import opened Expressions
  import opened Semantics

  /** The two operands have been evaluated, to a and then to c. */
  ghost predicate Operands(host: Host, left: Expr, right: Expr, env: Env, h: Heap, a: Value, h1: Heap, c: Value,
      h2: Heap) {
    && Eval(host, left, false, No, env, h) == Ok(Plain(a), h1)
    && Eval(host, right, false, No, env, h1) == Ok(Plain(c), h2)
  }

  // ---- plus

  predicate Absent(v: Value) { v.Undefined? || v.Obj? }

  /**
   * `a + c`: the other operand if one is undefined or an object, the sum of two numbers, else one text after the
   * other.
   */
  lemma PlusMeaning(host: Host, left: Expr, right: Expr, create: Create, env: Env, h: Heap,
                    a: Value, h1: Heap, c: Value, h2: Heap)
    requires Operands(host, left, right, env, h, a, h1, c, h2)
    ensures var o := Eval(host, Binary(Arith(Add), left, right), false, create, env, h);
            && o.Ok? && o.heap == h2 && !o.value.Reference?
            && (Absent(a) ==> o.value.value == c)
            && (!Absent(a) && Absent(c) ==> o.value.value == a)
            && (a.Num? && c.Num? ==> o.value.value == Num(host.arith(Add, a.n, c.n)))
            && (!Absent(a) && !Absent(c) && !(a.Num? && c.Num?) ==>
                && o.value.value.Str?
                && Joins(o.value.value.s, host.text(a, h2), host.text(c, h2)))
  {
  }

  /** The text begins with the one and ends with the other, and holds nothing else. */
  predicate Joins(whole: string, front: string, back: string) {
    |whole| == |front| + |back| && whole[..|front|] == front && whole[|front|..] == back
  }

  lemma LettersJoin(host: Host, env: Env, h: Heap)
    requires forall s, g :: host.text(Str(s), g) == s
    ensures Eval(host, Binary(Arith(Add), Literal(Str("a")), Literal(Str("b"))), false, No, env, h)
            == Ok(Plain(Str("ab")), h)
  {
    assert "a" + "b" == "ab";
  }

  // ---- the other operators on two operands

  /** What counts as zero when it is missing. */
  function NumberOr0(host: Host, v: Value, h: Heap): Number {
    if v == Undefined then Zero(false) else host.number(v, h)
  }

  /**
   * `a - c` takes undefined for zero; `*`, `/` and `%` take the left operand as it is before the right one is
   * evaluated.
   */
  lemma ArithmeticMeaning(host: Host, op: ArithOp, left: Expr, right: Expr, create: Create, env: Env, h: Heap,
                          a: Value, h1: Heap, c: Value, h2: Heap)
    requires Operands(host, left, right, env, h, a, h1, c, h2)
    ensures var o := Eval(host, Binary(Arith(op), left, right), false, create, env, h);
            && (op.Sub? ==> o == Ok(Plain(Num(host.arith(Sub, NumberOr0(host, a, h2), NumberOr0(host, c, h2)))), h2))
            && (op.Mul? || op.Div? || op.Mod? ==>
                o == Ok(Plain(Num(host.arith(op, host.number(a, h1), host.number(c, h2)))), h2))
  {
  }

  /** `a < c` and its kin compare the operands in the order they are written. */
  lemma RelationMeaning(host: Host, op: RelOp, left: Expr, right: Expr, create: Create, env: Env, h: Heap,
                        a: Value, h1: Heap, c: Value, h2: Heap)
    requires Operands(host, left, right, env, h, a, h1, c, h2)
    ensures Eval(host, Binary(Rel(op), left, right), false, create, env, h)
            == Ok(Plain(Bool(host.relation(op, a, c, h2))), h2)
  {
  }

  /**
   * `a === c`: never for NaN, the zeros are one, objects are the same only as the same reference; `!==` says the
   * opposite.
   */
  lemma StrictMeaning(host: Host, left: Expr, right: Expr, create: Create, env: Env, h: Heap,
                      a: Value, h1: Heap, c: Value, h2: Heap)
    requires Operands(host, left, right, env, h, a, h1, c, h2)
    ensures var o := Eval(host, Binary(Same, left, right), false, create, env, h);
            && o.Ok? && o.heap == h2 && !o.value.Reference? && o.value.value.Bool?
            && (o.value.value.b <==>
                || (a == c && a != Num(NaN))
                || (a == Num(Zero(true)) && c == Num(Zero(false)))
                || (a == Num(Zero(false)) && c == Num(Zero(true))))
            && Eval(host, Binary(NotSame, left, right), false, create, env, h) == Ok(Plain(Bool(!o.value.value.b)), h2)
  {
  }

  /**
   * `a == c`: null and undefined equal each other and nothing else, two objects only themselves; `!=` says the
   * opposite.
   */
  lemma LooseMeaning(host: Host, left: Expr, right: Expr, create: Create, env: Env, h: Heap,
                     a: Value, h1: Heap, c: Value, h2: Heap)
    requires Operands(host, left, right, env, h, a, h1, c, h2)
    ensures var o := Eval(host, Binary(Loose, left, right), false, create, env, h);
            && o.Ok? && o.heap == h2 && !o.value.Reference? && o.value.value.Bool?
            && (a in {Null, Undefined} || c in {Null, Undefined} ==>
                (o.value.value.b <==> a in {Null, Undefined} && c in {Null, Undefined}))
            && (a.Obj? && c.Obj? ==> (o.value.value.b <==> a == c))
            && (a !in {Null, Undefined} && c !in {Null, Undefined} && !(a.Obj? && c.Obj?) ==>
                o.value.value.b == host.looselyEqual(a, c, h2))
            && Eval(host, Binary(NotLoose, left, right), false, create, env, h) == Ok(Plain(Bool(!o.value.value.b)), h2)
  {
  }

  // ---- one operand, choices

  /** The values that count as false. */
  predicate Falsy(v: Value) {
    v in {Undefined, Null, Bool(false), Num(NaN), Num(Zero(false)), Num(Zero(true)), Str("")}
  }

  lemma FalsyIsNotTruthy(v: Value)
    ensures Falsy(v) <==> !Truthy(v)
  {
  }

  /** Equal in size, opposite in sign. */
  predicate Opposite(m: Number, n: Number) {
    match n
    case NaN => m.NaN?
    case Infinite(negative) => m.Infinite? && m.negative != negative
    case Zero(negative) => m.Zero? && m.negative != negative
    case NonZero(r) => m.NonZero? && m.r + r == 0.0
  }

  /**
   * `+x` is the number of x and `-x` its opposite, both with zero for undefined; `!x` says whether x counts as false.
   */
  lemma UnaryMeaning(host: Host, e: Expr, create: Create, env: Env, h: Heap, v: Value, h1: Heap)
    requires Eval(host, e, false, No, env, h) == Ok(Plain(v), h1)
    ensures Eval(host, Unary(Plus, e), false, create, env, h) == Ok(Plain(Num(NumberOr0(host, v, h1))), h1)
    ensures var o := Eval(host, Unary(Minus, e), false, create, env, h);
            && o.Ok? && o.heap == h1 && !o.value.Reference? && o.value.value.Num?
            && Opposite(o.value.value.n, NumberOr0(host, v, h1))
    ensures Eval(host, Unary(Not, e), false, create, env, h) == Ok(Plain(Bool(Falsy(v))), h1)
  {
    FalsyIsNotTruthy(v);
  }

  /** `&&`, `||` and `??` end with the left operand, the right one then not being evaluated, or with the right one. */
  lemma LogicalMeaning(host: Host, op: LogicalOp, left: Expr, right: Expr, create: Create, env: Env, h: Heap,
                       a: Value, h1: Heap)
    requires Eval(host, left, false, No, env, h) == Ok(Plain(a), h1)
    ensures var ends := match op case And => Falsy(a) case Or => !Falsy(a) case Coalesce => a !in {Null, Undefined};
            Eval(host, Logical(op, left, right), false, create, env, h)
            == if ends then Ok(Plain(a), h1) else Eval(host, right, false, No, env, h1)
  {
    FalsyIsNotTruthy(a);
    var r := Eval(host, right, false, No, env, h1);
    assert r.Ok? ==> r.value == Plain(r.value.value);
  }

  lemma ConditionalMeaning(host: Host, test: Expr, yes: Expr, no: Expr, create: Create, env: Env, h: Heap,
                           t: Value, h1: Heap)
    requires Eval(host, test, false, No, env, h) == Ok(Plain(t), h1)
    ensures Eval(host, Conditional(test, yes, no), false, create, env, h)
            == Eval(host, if Falsy(t) then no else yes, false, No, env, h1)
  {
    FalsyIsNotTruthy(t);
    var r := Eval(host, if Falsy(t) then no else yes, false, No, env, h1);
    assert r.Ok? ==> r.value == Plain(r.value.value);
  }

  /** A negated test exchanges the branches of a choice. */
  lemma NotExchanges(host: Host, test: Expr, yes: Expr, no: Expr, create: Create, env: Env, h: Heap)
    ensures Eval(host, Conditional(Unary(Not, test), yes, no), false, create, env, h)
            == Eval(host, Conditional(test, no, yes), false, create, env, h)
  {
    var o := Eval(host, test, false, No, env, h);
    if o.Ok? {
      var v := o.value.value;
      assert o == Ok(Plain(v), o.heap);
      UnaryMeaning(host, test, No, env, h, v, o.heap);
      ConditionalMeaning(host, Unary(Not, test), yes, no, create, env, h, Bool(Falsy(v)), o.heap);
      ConditionalMeaning(host, test, no, yes, create, env, h, v, o.heap);
    } else {
      ThrownTest(host, test, no, yes, create, env, h);
      ThrownTest(host, Unary(Not, test), yes, no, create, env, h);
    }
  }

  lemma ThrownTest(host: Host, test: Expr, yes: Expr, no: Expr, create: Create, env: Env, h: Heap)
    requires Eval(host, test, false, No, env, h).Threw?
    ensures Eval(host, Conditional(test, yes, no), false, create, env, h) == Eval(host, test, false, No, env, h)
  {
  }

  // ---- reading

  /** A name is a slot of the locals if they have it, and of the scope otherwise. */
  lemma NameMeaning(host: Host, name: string, env: Env, h: Heap)
    ensures var o := Eval(host, Identifier(name), false, No, env, h);
            && o.Ok? && o.heap == h
            && (env.locals.Some? && name in SlotsOf(h, env.locals.value) ==>
                o.value == Plain(SlotsOf(h, env.locals.value)[name]))
            && (!(env.locals.Some? && name in SlotsOf(h, env.locals.value)) && env.scope.Obj? ==>
                o.value == Plain(Slot(h, env.scope.ref, name)))
  {
  }

  /** `s.p` and `s[i]`: a slot of an object, undefined of null and undefined. */
  lemma MemberMeaning(host: Host, subject: Expr, p: string, env: Env, h: Heap, v: Value, h1: Heap)
    requires Eval(host, subject, false, No, env, h) == Ok(Plain(v), h1)
    ensures var o := Eval(host, Member(subject, p), false, No, env, h);
            && o.Ok? && o.heap == h1
            && (v in {Null, Undefined} ==> o.value == Plain(Undefined))
            && (v.Obj? ==> o.value == Plain(Slot(h1, v.ref, p)))
  {
  }

  lemma ComputedMeaning(host: Host, subject: Expr, index: Expr, env: Env, h: Heap, v: Value, h1: Heap, i: Value,
      h2: Heap)
    requires Operands(host, subject, index, env, h, v, h1, i, h2)
    ensures var o := Eval(host, Computed(subject, index), false, No, env, h);
            && o.Ok?
            && (v in {Null, Undefined} ==> o.value == Plain(Undefined) && o.heap == h1)
            && (v.Obj? ==> o.value == Plain(Slot(h2, v.ref, host.text(i, h2))) && o.heap == h2)
  {
  }

  /** A function read from an object is called on that object, one read from a name on the base that has the name. */
  lemma MethodCallMeaning(host: Host, subject: Expr, p: string, args: seq<Expr>, env: Env, h: Heap,
                          v: Value, h1: Heap, f: nat, vs: seq<Value>, h2: Heap)
    requires Eval(host, subject, false, No, env, h) == Ok(Plain(v), h1) && v.Obj? && Slot(h1, v.ref, p) == Func(f)
    requires EvalCallArgs(host, args, env, h1) == Ok(vs, h2)
    ensures Eval(host, Call(Member(subject, p), args), false, No, env, h)
            == var r := host.call(f, v, vs, h2); if r.Ok? then Ok(Plain(r.value), r.heap) else Threw(r.heap)
  {
    assert Eval(host, Member(subject, p), true, No, env, h) == Ok(Reference(v, Some(p), Func(f)), h1);
  }

  lemma NameCallMeaning(host: Host, name: string, args: seq<Expr>, env: Env, h: Heap, base: nat, f: nat,
                        vs: seq<Value>, h1: Heap)
    requires if env.locals.Some? && name in SlotsOf(h, env.locals.value) then base == env.locals.value
             else env.scope == Obj(base)
    requires Slot(h, base, name) == Func(f) && EvalCallArgs(host, args, env, h) == Ok(vs, h1)
    ensures Eval(host, Call(Identifier(name), args), false, No, env, h)
            == var r := host.call(f, Obj(base), vs, h1); if r.Ok? then Ok(Plain(r.value), r.heap) else Threw(r.heap)
  {
    assert Eval(host, Identifier(name), true, No, env, h) == Ok(Reference(Obj(base), Some(name), Func(f)), h);
  }

  /** What is no function is not called: undefined, and the arguments are not evaluated. */
  lemma NoFunctionMeaning(host: Host, callee: Expr, args: seq<Expr>, env: Env, h: Heap)
    requires !callee.Filter?
    requires var o := Eval(host, callee, true, No, env, h); o.Ok? && !o.value.value.Func?
    ensures Eval(host, Call(callee, args), false, No, env, h)
            == Ok(Plain(Undefined), Eval(host, callee, true, No, env, h).heap)
  {
  }

  /** An argument that is a function is replaced by what it returns. */
  lemma OneArgumentMeaning(host: Host, e: Expr, env: Env, h: Heap, v: Value, h1: Heap)
    requires Eval(host, e, false, No, env, h) == Ok(Plain(v), h1)
    ensures EvalCallArgs(host, [e], env, h)
            == if !v.Func? then Ok([v], h1)
               else var r := host.call(v.id, Undefined, [], h1); if r.Ok? then Ok([r.value], r.heap) else Threw(r.heap)
  {
    assert [e][1..] == [];
    var w := Force(host, v, h1);
    if w.Ok? {
      assert EvalForced(host, [], env, w.heap) == Ok([], w.heap);
      assert [w.value] + [] == [w.value];
    }
  }

  /** A list of expressions is evaluated from left to right: each in the heap that those before it leave. */
  lemma {:induction false} ListMeaning(host: Host, es: seq<Expr>, env: Env, h: Heap, i: nat)
    requires EvalAll(host, es, env, h).Ok? && i < |es|
    ensures |EvalAll(host, es, env, h).value| == |es| && EvalAll(host, es[..i], env, h).Ok?
    ensures var o := Eval(host, es[i], false, No, env, EvalAll(host, es[..i], env, h).heap);
            o.Ok? && o.value == Plain(EvalAll(host, es, env, h).value[i])
    decreases |es|
  {
    var o := Eval(host, es[0], false, No, env, h);
    if i > 0 {
      assert es[..i][0] == es[0] && es[..i][1..] == es[1..][..i - 1];
      ListMeaning(host, es[1..], env, o.heap, i - 1);
    } else {
      ListLength(host, es, env, h);
      assert EvalAll(host, [], env, h) == Ok([], h) && es[..0] == [];
    }
  }

  lemma {:induction false} ListLength(host: Host, es: seq<Expr>, env: Env, h: Heap)
    requires EvalAll(host, es, env, h).Ok?
    ensures |EvalAll(host, es, env, h).value| == |es|
    decreases |es|
  {
    if |es| > 0 { ListLength(host, es[1..], env, Eval(host, es[0], false, No, env, h).heap); }
  }

  /** `x | f : y`: the filter is given the values of its arguments, in order, once all are known. */
  lemma FilterMeaning(host: Host, f: string, args: seq<Expr>, env: Env, h: Heap, vs: seq<Value>, h1: Heap)
    requires EvalAll(host, args, env, h) == Ok(vs, h1)
    ensures Eval(host, Filter(f, args), false, No, env, h)
            == var r := host.filter(f, vs, h1); if r.Ok? then Ok(Plain(r.value), r.heap) else Threw(r.heap)
  {
  }

  // ---- literals

  lemma {:induction false} DecimalInjective(m: nat, n: nat)
    requires Decimal(m) == Decimal(n)
    ensures m == n
    decreases m
  {
    DecimalLength(m);
    DecimalLength(n);
    if m >= 10 && n >= 10 {
      var a, b := Decimal(m / 10), Decimal(n / 10);
      assert (a + [Digit(m % 10)])[..|a|] == a && (b + [Digit(n % 10)])[..|b|] == b;
      assert (a + [Digit(m % 10)])[|a|] == Digit(m % 10) && (b + [Digit(n % 10)])[|b|] == Digit(n % 10);
      DecimalInjective(m / 10, n / 10);
    }
  }

  lemma {:induction false} DecimalLength(n: nat)
    ensures |Decimal(n)| >= 1 && (|Decimal(n)| == 1 <==> n < 10)
    ensures forall i | 0 <= i < |Decimal(n)| :: '0' <= Decimal(n)[i] <= '9'
    decreases n
  {
    if n >= 10 { DecimalLength(n / 10); }
  }

  lemma {:induction false} ItemAt(vs: seq<Value>, i: nat)
    requires i < |vs|
    ensures Decimal(i) in ItemSlots(vs) && ItemSlots(vs)[Decimal(i)] == vs[i]
    decreases |vs|
  {
    var n := |vs| - 1;
    if i < n {
      ItemAt(vs[..n], i);
      if Decimal(i) == Decimal(n) { DecimalInjective(i, n); }
    }
  }

  lemma {:induction false} ItemKeys(vs: seq<Value>, k: string)
    requires k in ItemSlots(vs)
    ensures exists i: nat :: i < |vs| && k == Decimal(i)
    decreases |vs|
  {
    var n := |vs| - 1;
    if k != Decimal(n) { ItemKeys(vs[..n], k); }
  }

  /** The slots of an array: its items in order, under their indices, its length, and nothing else. */
  ghost predicate HoldsItems(slots: Slots, vs: seq<Value>) {
    && (forall i: nat | i < |vs| :: Decimal(i) in slots && slots[Decimal(i)] == vs[i])
    && (forall k | k in slots :: k == "length" || exists i: nat :: i < |vs| && k == Decimal(i))
    && "length" in slots && slots["length"] == Num(if |vs| == 0 then Zero(false) else NonZero(|vs| as real))
  }

  lemma ArraySlotsHold(vs: seq<Value>)
    ensures HoldsItems(ArraySlots(vs), vs)
  {
    assert "length"[0] == 'l';
    forall i: nat | i < |vs| ensures Decimal(i) in ArraySlots(vs) && ArraySlots(vs)[Decimal(i)] == vs[i] {
      ItemAt(vs, i);
      DecimalLength(i);
      assert Decimal(i)[0] != 'l';
    }
    forall k | k in ArraySlots(vs) ensures k == "length" || exists i: nat :: i < |vs| && k == Decimal(i) {
      if k != "length" { ItemKeys(vs, k); }
    }
  }

  /** An array literal is a new object that holds the items; nothing else changes. */
  lemma ArrayMeaning(host: Host, es: seq<Expr>, env: Env, h: Heap, vs: seq<Value>, h1: Heap)
    requires EvalAll(host, es, env, h) == Ok(vs, h1)
    ensures var o := Eval(host, Array(es), false, No, env, h);
            && o.Ok? && o.value == Plain(Obj(h1.next)) && o.heap.next == h1.next + 1
            && HoldsItems(SlotsOf(o.heap, h1.next), vs)
            && (forall r: nat | r != h1.next :: SlotsOf(o.heap, r) == SlotsOf(h1, r))
  {
    ArraySlotsHold(vs);
    NewObject(h1, ArraySlots(vs));
    assert Eval(host, Array(es), false, No, env, h)
        == Ok(Plain(Alloc(h1, ArraySlots(vs)).0), Alloc(h1, ArraySlots(vs)).1);
  }

  lemma NewObject(h: Heap, slots: Slots)
    ensures var (v, h') := Alloc(h, slots);
            && v == Obj(h.next) && h'.next == h.next + 1 && SlotsOf(h', h.next) == slots
            && forall r: nat | r != h.next :: SlotsOf(h', r) == SlotsOf(h, r)
  {
  }

  /** `{k: v, …}`: of two properties with one key the later one counts. */
  lemma {:induction false} PropertiesMeaning(host: Host, ps: seq<Property>, env: Env, h: Heap, slots: Slots)
    requires EvalProperties(host, ps, env, h, slots).Ok? && forall p | p in ps :: p.Fixed?
    ensures var r := EvalProperties(host, ps, env, h, slots).value;
            && (forall k :: k in r <==> k in slots || exists p :: p in ps && p.key == k)
            && (forall k | k in slots && forall p | p in ps :: p.key != k :: r[k] == slots[k])
    decreases |ps|
  {
    if |ps| > 0 {
      var v := Eval(host, ps[0].value, false, No, env, h);
      PropertiesMeaning(host, ps[1..], env, v.heap, slots[ps[0].key := v.value.value]);
      assert forall p :: p in ps <==> p == ps[0] || p in ps[1..];
    }
  }

  /** The last property of an object literal is in the object as it was evaluated. */
  lemma LastPropertyMeaning(host: Host, ps: seq<Property>, key: string, e: Expr, env: Env, h: Heap, slots: Slots,
      h1: Heap)
    requires EvalProperties(host, ps, env, h, map[]) == Ok(slots, h1) && Eval(host, e, false, No, env, h1).Ok?
    ensures var o := Eval(host, ObjectLiteral(ps + [Fixed(key, e)]), false, No, env, h);
            var v := Eval(host, e, false, No, env, h1);
            && o.Ok? && o.value == Plain(Obj(v.heap.next))
            && SlotsOf(o.heap, v.heap.next) == slots[key := v.value.value]
            && forall r: nat | r != v.heap.next :: SlotsOf(o.heap, r) == SlotsOf(v.heap, r)
  {
    PropertiesSnoc(host, ps, Fixed(key, e), env, h, map[]);
  }

  lemma {:induction false} PropertiesSnoc(host: Host, ps: seq<Property>, p: Property, env: Env, h: Heap, slots: Slots)
    requires p.Fixed? && EvalProperties(host, ps, env, h, slots).Ok?
    requires Eval(host, p.value, false, No, env, EvalProperties(host, ps, env, h, slots).heap).Ok?
    ensures var r := EvalProperties(host, ps, env, h, slots);
            var v := Eval(host, p.value, false, No, env, r.heap);
            EvalProperties(host, ps + [p], env, h, slots) == Ok(r.value[p.key := v.value.value], v.heap)
    decreases |ps|
  {
    if |ps| == 0 {
      assert ps + [p] == [p] && [p][1..] == [];
    } else {
      assert (ps + [p])[1..] == ps[1..] + [p];
      var k := EvalKey(host, ps[0], env, h);
      var v := Eval(host, ps[0].value, false, No, env, k.heap);
      PropertiesSnoc(host, ps[1..], p, env, v.heap, slots[k.value := v.value.value]);
    }
  }

  // ---- increment and decrement

  /** Nothing but this slot is different, and it holds the value. */
  ghost predicate OnlySlot(h: Heap, h': Heap, r: nat, key: string, v: Value) {
    && h'.next == h.next && SlotsOf(h', r) == SlotsOf(h, r)[key := v]
    && forall q: nat | q != r :: SlotsOf(h', q) == SlotsOf(h, q)
  }

  /**
   * `++` and `--`: the slot afterwards holds the number one more or one less than the number of what it held; the value
   * is that number in prefix form and the number before in postfix form. Without an object there is nothing to change,
   * and on null and undefined they throw.
   */
  lemma UpdateMeaning(host: Host, increment: bool, prefix: bool, e: Expr, env: Env, h: Heap,
                      context: Value, name: Option<string>, v: Value, h1: Heap)
    requires Eval(host, e, true, Leaf, env, h) == Ok(Reference(context, name, v), h1)
    ensures var o := Eval(host, Update(increment, prefix, e), false, No, env, h);
            var before := host.number(v, h1);
            var after := host.arith(if increment then Add else Sub, before, NonZero(1.0));
            && (context in {Null, Undefined} ==> o == Threw(h1))
            && (context !in {Null, Undefined} ==>
                && o.Ok? && o.value == Plain(Num(if prefix then after else before))
                && (if context.Obj? && name.Some? && name.value != ""
                    then OnlySlot(h1, o.heap, context.ref, name.value, Num(after)) else o.heap == h1))
  {
    BumpMeaning(host, increment, prefix, context, name, v, h1);
    assert Eval(host, Update(increment, prefix, e), false, No, env, h)
        == Bump(host, increment, prefix, false, context, name, v, h1);
  }

  lemma BumpMeaning(host: Host, increment: bool, prefix: bool, context: Value, name: Option<string>, v: Value, h: Heap)
    ensures var o := Bump(host, increment, prefix, false, context, name, v, h);
            var before := host.number(v, h);
            var after := host.arith(if increment then Add else Sub, before, NonZero(1.0));
            && (context in {Null, Undefined} ==> o == Threw(h))
            && (context !in {Null, Undefined} ==>
                && o.Ok? && o.value == Plain(Num(if prefix then after else before))
                && (if context.Obj? && name.Some? && name.value != ""
                    then OnlySlot(h, o.heap, context.ref, name.value, Num(after)) else o.heap == h))
  {
  }

  /** Read again, an incremented name gives the number after. */
  lemma IncrementedReads(host: Host, prefix: bool, name: string, env: Env, h: Heap)
    requires name != "" && env.scope.Obj?
    ensures var old_ := Eval(host, Identifier(name), false, No, env, h).value.value;
            var o := Eval(host, Update(true, prefix, Identifier(name)), false, No, env, h);
            && o.Ok?
            && Eval(host, Identifier(name), false, No, env, o.heap)
               == Ok(Plain(Num(host.arith(Add, host.number(old_, h), NonZero(1.0)))), o.heap)
            && (prefix ==> o.value == Eval(host, Identifier(name), false, No, env, o.heap).value)
            && (!prefix ==> o.value == Plain(Num(host.number(old_, h))))
  {
    var base := Base(env, name, h);
    var v := Slot(h, base.ref, name);
    assert Eval(host, Identifier(name), true, Leaf, env, h) == Ok(Reference(base, Some(name), v), h);
    UpdateMeaning(host, true, prefix, Identifier(name), env, h, base, Some(name), v, h);
  }

  // ---- assignment, leaves and programs

  /**
   * `target = source`: the value is the source's, the slot that the target names holds it afterwards, and nothing else
   * is different. On null and undefined it throws; what is no object takes the write and forgets it.
   */
  lemma AssignmentMeaning(host: Host, target: Expr, source: Expr, env: Env, h: Heap,
                          context: Value, name: Option<string>, v: Value, h1: Heap, w: Value, h2: Heap)
    requires Eval(host, target, true, Leaf, env, h) == Ok(Reference(context, name, v), h1)
    requires Eval(host, source, false, No, env, h1) == Ok(Plain(w), h2)
    ensures var o := Eval(host, Assignment(target, source), false, No, env, h);
            && (name.None? ==> o == Ok(Plain(w), h2))
            && (name.Some? && context in {Null, Undefined} ==> o == Threw(h2))
            && (name.Some? && context !in {Null, Undefined} ==>
                && o.Ok? && o.value == Plain(w)
                && if context.Obj? then OnlySlot(h2, o.heap, context.ref, name.value, w) else o.heap == h2)
  {
    StoreMeaning(context, name, w, h2);
    assert Eval(host, Assignment(target, source), false, No, env, h) == Store(false, context, name, w, h2);
  }

  lemma StoreMeaning(context: Value, name: Option<string>, w: Value, h: Heap)
    ensures var o := Store(false, context, name, w, h);
            && (name.None? ==> o == Ok(Plain(w), h))
            && (name.Some? && context in {Null, Undefined} ==> o == Threw(h))
            && (name.Some? && context !in {Null, Undefined} ==>
                && o.Ok? && o.value == Plain(w)
                && if context.Obj? then OnlySlot(h, o.heap, context.ref, name.value, w) else o.heap == h)
  {
  }

  /** `this` is the scope, `$locals` the locals or undefined, and a literal itself; none changes anything. */
  lemma LeafMeaning(host: Host, v: Primitive, env: Env, h: Heap)
    ensures Eval(host, This, false, No, env, h) == Ok(Plain(env.scope), h)
    ensures Eval(host, Locals, false, No, env, h)
         == Ok(Plain(if env.locals.Some? then Obj(env.locals.value) else Undefined), h)
    ensures Eval(host, AssignedValue, false, No, env, h) == Ok(Plain(env.input), h)
    ensures Eval(host, Literal(v), false, No, env, h) == Ok(Plain(v), h)
  {
  }

  /** The last statement of a program runs in the heap the others leave, and its value is the program's. */
  lemma {:induction false} ProgramMeaning(host: Host, body: seq<Expr>, e: Expr, env: Env, h: Heap)
    ensures var before := EvalProgram(host, body, env, h);
            EvalProgram(host, body + [e], env, h)
            == if before.Ok? then Eval(host, e, false, No, env, before.heap) else before
    decreases |body|
  {
    if |body| == 0 {
      assert body + [e] == [e];
    } else {
      assert (body + [e])[1..] == body[1..] + [e];
      var first := Eval(host, body[0], false, No, env, h);
      if first.Ok? { ProgramMeaning(host, body[1..], e, env, first.heap); }
      if |body| == 1 { assert body[1..] == []; }
    }
  }
}
