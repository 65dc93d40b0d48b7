/**
 * The order in which a call evaluates its arguments and invokes those that are functions: with two arguments
 * both are evaluated first (src/core/parse/interpreter.ts:531-540), with three or more each is invoked
 * at once (src/core/parse/interpreter.ts:580-584).
 */
module CallOrder {
  import opened Basics
  import opened JsValues
  import opened Expressions
  import opened Semantics
  import opened Interpreter
  import opened CompileCorrect
  import opened Lockstep

  /** Invoking this function first and evaluating the expression first leave the same results and heap. */
  predicate Commutes(host: Host, f: nat, e: Expr, env: Env, h: Heap) {
    Swapped(host, f, e, env, h) == InOrder(host, f, e, env, h)
  }

  function InOrder(host: Host, f: nat, e: Expr, env: Env, h: Heap): Result<(Value, Value)> {
    var (v, h1) :- host.call(f, Undefined, [], h);
    var (a, h2) :- Eval(host, e, false, No, env, h1);
    Ok((v, a.value), h2)
  }

  function Swapped(host: Host, f: nat, e: Expr, env: Env, h: Heap): Result<(Value, Value)> {
    var (a, h1) :- Eval(host, e, false, No, env, h);
    var (v, h2) :- host.call(f, Undefined, [], h1);
    Ok((v, a.value), h2)
  }

  lemma TwoArguments(host: Host, e0: Expr, e1: Expr, env: Env, h: Heap)
    ensures EvalCallArgs(host, [e0, e1], env, h) ==
            (var (a, h1) :- Eval(host, e0, false, No, env, h);
             var (b, h2) :- Eval(host, e1, false, No, env, h1);
             var (v, h3) :- Force(host, a.value, h2);
             var (w, h4) :- Force(host, b.value, h3);
             Ok([v, w], h4))
  {
    var o := Eval(host, e0, false, No, env, h);
    BothValues(host, e0, e1, env, h);
    if o.Ok? {
      var p := Eval(host, e1, false, No, env, o.heap);
      if p.Ok? { ForceTwo(host, o.value.value, p.value.value, p.heap); }
    }
  }

  lemma BothValues(host: Host, e0: Expr, e1: Expr, env: Env, h: Heap)
    ensures EvalAll(host, [e0, e1], env, h) ==
            (var (a, h1) :- Eval(host, e0, false, No, env, h);
             var (b, h2) :- Eval(host, e1, false, No, env, h1);
             Ok([a.value, b.value], h2))
  {
    RunAllCorrect(host, [e0, e1], env, h);
    RunTwo(RecurseAll(host, [e0, e1]), env, h);
    FirstTwo(host, [e0, e1], env, h);
  }

  lemma OneForced(host: Host, e: Expr, env: Env, h: Heap)
    ensures EvalForced(host, [e], env, h) ==
            (var (b, h1) :- Eval(host, e, false, No, env, h);
             var (w, h2) :- Force(host, b.value, h1);
             Ok([w], h2))
  {
    assert [e][1..] == [];
    var o := Eval(host, e, false, No, env, h);
    if o.Ok? {
      var p := Force(host, o.value.value, o.heap);
      if p.Ok? {
        assert EvalForced(host, [], env, p.heap) == Ok([], p.heap);
        assert [p.value] + [] == [p.value];
      }
    }
  }

  lemma OneAtATime(host: Host, e0: Expr, e1: Expr, env: Env, h: Heap)
    ensures EvalForced(host, [e0, e1], env, h) ==
            (var (a, h1) :- Eval(host, e0, false, No, env, h);
             var (v, h2) :- Force(host, a.value, h1);
             var (b, h3) :- Eval(host, e1, false, No, env, h2);
             var (w, h4) :- Force(host, b.value, h3);
             Ok([v, w], h4))
  {
    assert [e0, e1][1..] == [e1];
    var o := Eval(host, e0, false, No, env, h);
    if o.Ok? {
      var p := Force(host, o.value.value, o.heap);
      if p.Ok? {
        OneForced(host, e1, env, p.heap);
        assert forall w: Value :: [p.value] + [w] == [p.value, w];
      }
    }
  }

  lemma CommutingAgree(host: Host, e0: Expr, e1: Expr, env: Env, h: Heap)
    requires var o := Eval(host, e0, false, No, env, h);
             o.Ok? && o.value.value.Func? ==> Commutes(host, o.value.value.id, e1, env, o.heap)
    ensures EvalCallArgs(host, [e0, e1], env, h) == EvalForced(host, [e0, e1], env, h)
  {
    TwoArguments(host, e0, e1, env, h);
    OneAtATime(host, e0, e1, env, h);
  }

  /** The function, called without arguments, returns one value and leaves every heap as it is. */
  ghost predicate PureThunk(host: Host, f: nat) { exists v :: AlwaysReturns(host, f, v) }

  ghost predicate AlwaysReturns(host: Host, f: nat, v: Value) {
    forall g :: host.call(f, Undefined, [], g) == Ok(v, g)
  }

  /** Whatever the second argument does, the orders agree if the first is no function, or a pure one. */
  lemma PureArgumentAgrees(host: Host, e0: Expr, e1: Expr, env: Env, h: Heap)
    requires var o := Eval(host, e0, false, No, env, h);
             o.Ok? && o.value.value.Func? ==> PureThunk(host, o.value.value.id)
    ensures EvalCallArgs(host, [e0, e1], env, h) == EvalForced(host, [e0, e1], env, h)
  {
    var o := Eval(host, e0, false, No, env, h);
    if o.Ok? && o.value.value.Func? {
      var f := o.value.value.id;
      var v :| AlwaysReturns(host, f, v);
      assert Commutes(host, f, e1, env, o.heap);
    }
    CommutingAgree(host, e0, e1, env, h);
  }

  /** From v on, the path crosses no slot in which the heaps differ. */
  predicate SlotsKept(host: Host, v: Value, path: seq<string>, h: Heap, h1: Heap)
    decreases |path|
  {
    |path| == 0 ||
    (&& (v.Obj? ==> Slot(h1, v.ref, path[0]) == Slot(h, v.ref, path[0]))
     && SlotsKept(host, Read(host, v, path[0], h), path[1..], h, h1))
  }

  /** What decides where the path starts, and every slot it crosses, is the same in both heaps. */
  predicate PathKept(host: Host, path: seq<string>, env: Env, h: Heap, h1: Heap)
    requires |path| >= 1
  {
    Base(env, path[0], h1) == Base(env, path[0], h) && SlotsKept(host, Base(env, path[0], h), path, h, h1)
  }

  lemma {:induction false} KeptReads(host: Host, v: Value, path: seq<string>, h: Heap, h1: Heap)
    requires SlotsKept(host, v, path, h, h1)
    ensures FoldReads(host, v, path, h1) == FoldReads(host, v, path, h)
    decreases |path|
  {
    if |path| > 0 { KeptReads(host, Read(host, v, path[0], h), path[1..], h, h1); }
  }

  /** Invoking the first argument, if it is a function, changes nothing the second argument, a path, crosses. */
  predicate LeavesPath(host: Host, o: Outcome, path: seq<string>, env: Env)
    requires |path| >= 1
  {
    o.Ok? && o.value.value.Func? ==>
      var c := host.call(o.value.value.id, Undefined, [], o.heap);
      c.Ok? ==> PathKept(host, path, env, o.heap, c.heap)
  }

  /** The same, looking only at what the path leads to. */
  predicate LeavesValue(host: Host, o: Outcome, path: seq<string>, env: Env)
    requires |path| >= 1
  {
    o.Ok? && o.value.value.Func? ==>
      var c := host.call(o.value.value.id, Undefined, [], o.heap);
      c.Ok? ==> PathValue(host, path, env, c.heap) == PathValue(host, path, env, o.heap)
  }

  lemma LeavingAgrees(host: Host, e0: Expr, e1: Expr, env: Env, h: Heap)
    requires PathOf(e1).Some? && LeavesValue(host, Eval(host, e0, false, No, env, h), PathOf(e1).value, env)
    ensures EvalCallArgs(host, [e0, e1], env, h) == EvalForced(host, [e0, e1], env, h)
  {
    var o := Eval(host, e0, false, No, env, h);
    if o.Ok? && o.value.value.Func? {
      var c := host.call(o.value.value.id, Undefined, [], o.heap);
      EvalPath(host, e1, env, o.heap);
      EvalPath(host, e1, env, c.heap);
      assert Commutes(host, o.value.value.id, e1, env, o.heap);
    }
    CommutingAgree(host, e0, e1, env, h);
  }

  /** Main result, by a frame condition: the second argument is a path the function stays off. */
  lemma OrdersAgree(host: Host, e0: Expr, e1: Expr, env: Env, h: Heap)
    requires PathOf(e1).Some? && LeavesPath(host, Eval(host, e0, false, No, env, h), PathOf(e1).value, env)
    ensures EvalCallArgs(host, [e0, e1], env, h) == EvalForced(host, [e0, e1], env, h)
  {
    var o, path := Eval(host, e0, false, No, env, h), PathOf(e1).value;
    if o.Ok? && o.value.value.Func? {
      var c := host.call(o.value.value.id, Undefined, [], o.heap);
      if c.Ok? { KeptReads(host, Base(env, path[0], o.heap), path, o.heap, c.heap); }
    }
    LeavingAgrees(host, e0, e1, env, h);
  }

  /** The path leads to no function, before or after the call. */
  predicate LeadsToNoFunction(host: Host, o: Outcome, path: seq<string>, env: Env)
    requires |path| >= 1
  {
    o.Ok? && o.value.value.Func? ==>
      var c := host.call(o.value.value.id, Undefined, [], o.heap);
      !PathValue(host, path, env, o.heap).Func? && !PathValue(host, path, env, c.heap).Func?
  }

  /**
   * Main result, exact: the orders agree iff the call leaves what the path leads to. A path that leads to functions
   * is not covered by "only if": two different functions may return the same.
   */
  lemma OrdersAgreeIff(host: Host, e0: Expr, e1: Expr, env: Env, h: Heap)
    requires PathOf(e1).Some? && LeadsToNoFunction(host, Eval(host, e0, false, No, env, h), PathOf(e1).value, env)
    ensures EvalCallArgs(host, [e0, e1], env, h) == EvalForced(host, [e0, e1], env, h)
            <==> LeavesValue(host, Eval(host, e0, false, No, env, h), PathOf(e1).value, env)
  {
    var o, path := Eval(host, e0, false, No, env, h), PathOf(e1).value;
    if LeavesValue(host, o, path, env) {
      LeavingAgrees(host, e0, e1, env, h);
    } else {
      var c := host.call(o.value.value.id, Undefined, [], o.heap);
      TwoArguments(host, e0, e1, env, h);
      OneAtATime(host, e0, e1, env, h);
      EvalPath(host, e1, env, o.heap);
      EvalPath(host, e1, env, c.heap);
      var before, after := PathValue(host, path, env, o.heap), PathValue(host, path, env, c.heap);
      assert EvalCallArgs(host, [e0, e1], env, h) == Ok([c.value, before], c.heap);
      assert EvalForced(host, [e0, e1], env, h) == Ok([c.value, after], c.heap);
      assert [c.value, before][1] != [c.value, after][1];
    }
  }

  /** A host whose only function sets slot x of object 0 to null. */
  function SettingHost(): Host {
    SilentHost().(call := (f: nat, context: Value, args: seq<Value>, h: Heap) =>
      Ok(Undefined, Write(Obj(0), "x", Null, h)))
  }

  /** A scope with a function g and a slot x that is true. */
  const SCOPE_HEAP := Heap(1, map[0 := map["g" := Func(1), "x" := Bool(true)]])

  lemma ReadsOfScope(name: string, h: Heap)
    ensures Eval(SettingHost(), Identifier(name), false, No, Env(Obj(0), None, Undefined), h)
            == Ok(Plain(Slot(h, 0, name)), h)
  {
  }

  /** `f(g, x)` reads x before it invokes g; the variadic order reads it after. */
  lemma OrdersDiffer()
    ensures var host, env, args := SettingHost(), Env(Obj(0), None, Undefined), [Identifier("g"), Identifier("x")];
            && EvalCallArgs(host, args, env, SCOPE_HEAP).Ok? && EvalForced(host, args, env, SCOPE_HEAP).Ok?
            && EvalCallArgs(host, args, env, SCOPE_HEAP).value == [Undefined, Bool(true)]
            && EvalForced(host, args, env, SCOPE_HEAP).value == [Undefined, Null]
  {
    var env, after := Env(Obj(0), None, Undefined), Write(Obj(0), "x", Null, SCOPE_HEAP);
    TwoArguments(SettingHost(), Identifier("g"), Identifier("x"), env, SCOPE_HEAP);
    OneAtATime(SettingHost(), Identifier("g"), Identifier("x"), env, SCOPE_HEAP);
    ReadsOfScope("g", SCOPE_HEAP);
    ReadsOfScope("x", SCOPE_HEAP);
    ReadsOfScope("x", after);
    assert Slot(SCOPE_HEAP, 0, "g") == Func(1) && Slot(SCOPE_HEAP, 0, "x") == Bool(true) && Slot(after, 0, "x") == Null;
  }
}
