/** Every closure `Recurse` builds, fast form or not, behaves as the structural evaluator says. */
module CompileCorrect {
  import opened Basics
  import opened JsValues
  import opened Expressions
  import opened Semantics
  import opened Interpreter

  // ---- dotted paths

  /** Member reads one after the other, with no early exit. */
  function FoldReads(host: Host, v: Value, path: seq<string>, h: Heap): Value
    decreases |path|
  {
    if |path| == 0 then v else FoldReads(host, Read(host, v, path[0], h), path[1..], h)
  }

  lemma {:induction false} FoldReadsSnoc(host: Host, v: Value, path: seq<string>, last: string, h: Heap)
    ensures FoldReads(host, v, path + [last], h) == Read(host, FoldReads(host, v, path, h), last, h)
    decreases |path|
  {
    if |path| > 0 {
      assert (path + [last])[1..] == path[1..] + [last];
      FoldReadsSnoc(host, Read(host, v, path[0], h), path[1..], last, h);
    } else {
      assert path + [last] == [last];
      assert FoldReads(host, Read(host, v, last, h), [last][1..], h) == Read(host, v, last, h);
    }
  }

  lemma {:induction false} WalkPathIsFold(host: Host, v: Value, path: seq<string>, h: Heap)
    ensures WalkPath(host, v, path, h) == FoldReads(host, v, path, h)
    decreases |path|
  {
    if |path| > 0 {
      if Nullish(v) {
        MissingStaysMissing(host, path[1..], h);
      } else {
        WalkPathIsFold(host, Read(host, v, path[0], h), path[1..], h);
      }
    }
  }

  lemma {:induction false} MissingStaysMissing(host: Host, path: seq<string>, h: Heap)
    ensures FoldReads(host, Undefined, path, h) == Undefined
    decreases |path|
  {
    if |path| > 0 {
      MissingStaysMissing(host, path[1..], h);
    }
  }

  function PathValue(host: Host, path: seq<string>, env: Env, h: Heap): Value
    requires |path| >= 1
  {
    FoldReads(host, Base(env, path[0], h), path, h)
  }

  /** A path of any length is the fold of member reads, by whichever of the four getters. */
  lemma PathGetterIsFold(host: Host, path: seq<string>, env: Env, h: Heap)
    requires |path| >= 1
    ensures PathGetter(host, path)(env, h) == Ok(Plain(PathValue(host, path, env, h)), h)
  {
    var v0 := Read(host, Base(env, path[0], h), path[0], h);
    if |path| == 1 {
      assert FoldReads(host, v0, path[1..], h) == v0;
    } else if |path| == 2 {
      assert path[1..][1..] == [];
      assert FoldReads(host, v0, path[1..], h) == Read(host, v0, path[1], h);
    } else if |path| == 3 {
      assert path[1..][1..] == path[2..] && path[2..][1..] == [];
      var v1 := Read(host, v0, path[1], h);
      assert FoldReads(host, v1, path[2..], h) == Read(host, v1, path[2], h);
      assert FoldReads(host, v0, path[1..], h) == FoldReads(host, v1, path[2..], h);
    } else {
      WalkPathIsFold(host, v0, path[1..], h);
    }
  }

  lemma {:induction false} EvalPath(host: Host, e: Expr, env: Env, h: Heap)
    requires PathOf(e).Some?
    ensures Eval(host, e, false, No, env, h) == Ok(Plain(PathValue(host, PathOf(e).value, env, h)), h)
    decreases e
  {
    var path := PathOf(e).value;
    match e
    case Identifier(name) =>
      assert FoldReads(host, Read(host, Base(env, name, h), name, h), path[1..], h)
          == Read(host, Base(env, name, h), name, h);
    case Member(subject, property) =>
      EvalPath(host, subject, env, h);
      FoldReadsSnoc(host, Base(env, path[0], h), PathOf(subject).value, property, h);
  }

  lemma GetterCorrect(host: Host, e: Expr, env: Env, h: Heap)
    requires PathOf(e).Some?
    ensures PathGetter(host, PathOf(e).value)(env, h) == Eval(host, e, false, No, env, h)
            == Ok(Plain(PathValue(host, PathOf(e).value, env, h)), h)
  {
    PathGetterIsFold(host, PathOf(e).value, env, h);
    EvalPath(host, e, env, h);
  }

  lemma NameRead(host: Host, e: Expr, env: Env, h: Heap)
    requires PathOf(e).Some? && |PathOf(e).value| == 1
    ensures Eval(host, e, false, No, env, h)
            == Ok(Plain(Read(host, Base(env, PathOf(e).value[0], h), PathOf(e).value[0], h)), h)
  {
    LongerPath(e);
  }

  lemma LongerPath(e: Expr)
    requires PathOf(e).Some?
    ensures |PathOf(e).value| == 1 <==> e.Identifier?
  {
    if e.Member? { assert PathOf(e).value == PathOf(e.subject).value + [e.property]; }
  }

  lemma PairRead(host: Host, e: Expr, env: Env, h: Heap)
    requires PathOf(e).Some? && |PathOf(e).value| == 2
    ensures var p := PathOf(e).value;
            Eval(host, e, false, No, env, h)
            == Ok(Plain(Read(host, Read(host, Base(env, p[0], h), p[0], h), p[1], h)), h)
  {
    var p := PathOf(e).value;
    GetterCorrect(host, e, env, h);
    assert PathGetter(host, p)(env, h) == Ok(Plain(Read(host, Read(host, Base(env, p[0], h), p[0], h), p[1], h)), h);
  }

  // ---- fast forms of operators, filters, calls and object literals

  lemma BinaryFast(host: Host, op: BinaryOp, left: Expr, right: Expr, create: Create, env: Env, h: Heap)
    requires PathBinary(host, op, left, right).Some?
    ensures PathBinary(host, op, left, right).value(env, h)
            == Eval(host, Binary(op, left, right), false, create, env, h)
  {
    GetterCorrect(host, left, env, h);
    GetterCorrect(host, right, env, h);
  }

  lemma LogicalFast(host: Host, op: LogicalOp, left: Expr, right: Expr, create: Create, env: Env, h: Heap)
    requires PathLogical(host, op, left, right).Some?
    ensures PathLogical(host, op, left, right).value(env, h)
            == Eval(host, Logical(op, left, right), false, create, env, h)
  {
    GetterCorrect(host, left, env, h);
    GetterCorrect(host, right, env, h);
  }

  function GeneralFilter(host: Host, filter: string, codes: seq<Code>, env: Env, h: Heap): Outcome {
    var (vs, h1) :- RunAll(codes, env, h);
    var (v, h2) :- host.filter(filter, vs, h1);
    Ok(Plain(v), h2)
  }

  /**
   * One- and two-argument filters, by path or not, are the general filter call; in reference form no form runs the
   * filter, and only the longer ones evaluate its arguments.
   */
  lemma FilterForms(host: Host, filter: string, args: seq<Expr>, codes: seq<Code>, asReference: bool, env: Env, h: Heap)
    requires |args| == |codes|
    requires |args| == 1 ==> codes[0](env, h) == Eval(host, args[0], false, No, env, h)
    ensures !asReference ==> CompileFilterCall(host, filter, args, codes, false)(env, h)
                             == GeneralFilter(host, filter, codes, env, h)
    ensures asReference ==> CompileFilterCall(host, filter, args, codes, true)(env, h)
                            == if 1 <= |args| <= 2 then Ok(UNRUN_FILTER, h)
                               else (var (_, h1) :- RunAll(codes, env, h); Ok(UNRUN_FILTER, h1))
  {
    if |args| == 1 {
      RunOne(codes, env, h);
      var p := PathOf(args[0]);
      if p.Some? && |p.value| == 1 { NameRead(host, args[0], env, h); }
    } else if |args| == 2 {
      RunTwo(codes, env, h);
    }
  }

  lemma RunOne(codes: seq<Code>, env: Env, h: Heap)
    requires |codes| == 1
    ensures RunAll(codes, env, h) ==
            (var (a, h1) :- codes[0](env, h); Ok([a.value], h1))
  {
    var r := codes[0](env, h);
    if r.Ok? {
      assert RunAll(codes[1..], env, r.heap) == Ok([], r.heap);
      assert [r.value.value] + [] == [r.value.value];
    }
  }

  lemma RunTwo(codes: seq<Code>, env: Env, h: Heap)
    requires |codes| == 2
    ensures RunAll(codes, env, h) ==
            (var (a, h1) :- codes[0](env, h); var (b, h2) :- codes[1](env, h1); Ok([a.value, b.value], h2))
  {
    var r := codes[0](env, h);
    if r.Ok? {
      RunOne(codes[1..], env, r.heap);
      var r1 := codes[1](env, r.heap);
      if r1.Ok? { assert [r.value.value] + [r1.value.value] == [r.value.value, r1.value.value]; }
    }
  }

  function RunCallArgs(host: Host, codes: seq<Code>, env: Env, h: Heap): Result<seq<Value>> {
    if |codes| != 2 then RunForced(host, codes, env, h) else
    var (vs, h1) :- RunAll(codes, env, h);
    ForceAll(host, vs, h1)
  }

  lemma ForceTwo(host: Host, v0: Value, v1: Value, h: Heap)
    ensures ForceAll(host, [v0, v1], h) ==
            (var (a, h1) :- Force(host, v0, h); var (b, h2) :- Force(host, v1, h1); Ok([a, b], h2))
  {
    assert [v0, v1][1..] == [v1];
    var r := Force(host, v0, h);
    if r.Ok? {
      ForceOne(host, v1, r.heap);
      var r1 := Force(host, v1, r.heap);
      if r1.Ok? { assert [r.value] + [r1.value] == [r.value, r1.value]; }
    }
  }

  lemma ForceOne(host: Host, v: Value, h: Heap)
    ensures ForceAll(host, [v], h) == (var (a, h1) :- Force(host, v, h); Ok([a], h1))
  {
    var r := Force(host, v, h);
    if r.Ok? {
      assert ForceAll(host, [v][1..], r.heap) == Ok([], r.heap);
      assert [r.value] + [] == [r.value];
    }
  }

  function GeneralCall(host: Host, right: Code, codes: seq<Code>, asReference: bool, env: Env, h: Heap): Outcome {
    var (c, h1) :- right(env, h);
    var f := AsReference(c);
    if !f.value.Func? then Ok(Wrap(asReference, Undefined), h1) else
    var (vs, h2) :- RunCallArgs(host, codes, env, h1);
    var (v, h3) :- host.call(f.value.id, f.context, vs, h2);
    Ok(Wrap(asReference, v), h3)
  }

  /** Calls with any number of arguments through a reference-mode callee are the general call. */
  lemma CallForms(host: Host, callee: Expr, args: seq<Expr>, right: Code, codes: seq<Code>, asReference: bool,
      env: Env, h: Heap)
    requires |args| == |codes|
    requires right(env, h) == Eval(host, callee, true, No, env, h)
    requires |args| == 2 ==> codes[0](env, h) == Eval(host, args[0], false, No, env, h)
    requires |args| == 2 && codes[0](env, h).Ok? ==>
               var h1 := codes[0](env, h).heap;
               codes[1](env, h1) == Eval(host, args[1], false, No, env, h1)
    ensures CompileCall(host, callee, args, right, codes, asReference)(env, h)
            == GeneralCall(host, right, codes, asReference, env, h)
  {
    if |args| <= 1 {
      SmallForm(host, right, codes, asReference, env, h);
    } else if |args| == 2 {
      TwoForm(host, right, codes, asReference, env, h);
      if !asReference && callee.Identifier? {
        IdentifierCallForms(host, callee.name, args, right, codes, env, h);
      }
    }
  }

  lemma SmallForm(host: Host, right: Code, codes: seq<Code>, asReference: bool, env: Env, h: Heap)
    requires |codes| <= 1
    ensures SmallCall(host, right, codes, asReference)(env, h) == GeneralCall(host, right, codes, asReference, env, h)
  {
    var c := right(env, h);
    if c.Ok? && |codes| == 1 { OneArg(host, codes, env, c.heap); }
  }

  lemma TwoForm(host: Host, right: Code, codes: seq<Code>, asReference: bool, env: Env, h: Heap)
    requires |codes| == 2
    ensures TwoArgCall(host, right, codes[0], codes[1], asReference)(env, h)
            == GeneralCall(host, right, codes, asReference, env, h)
  {
    var c := right(env, h);
    if c.Ok? { TwoArgs(host, codes, env, c.heap); }
  }

  lemma OneArg(host: Host, codes: seq<Code>, env: Env, h: Heap)
    requires |codes| == 1
    ensures RunCallArgs(host, codes, env, h) ==
            (var (r, h1) :- codes[0](env, h); var (a, h2) :- Force(host, r.value, h1); Ok([a], h2))
  {
    var r := codes[0](env, h);
    if r.Ok? {
      var a := Force(host, r.value.value, r.heap);
      if a.Ok? {
        assert RunForced(host, codes[1..], env, a.heap) == Ok([], a.heap);
        assert [a.value] + [] == [a.value];
      }
    }
  }

  lemma TwoArgs(host: Host, codes: seq<Code>, env: Env, h: Heap)
    requires |codes| == 2
    ensures RunCallArgs(host, codes, env, h) ==
            (var (r0, h1) :- codes[0](env, h);
             var (r1, h2) :- codes[1](env, h1);
             var (a, h3) :- Force(host, r0.value, h2);
             var (b, h4) :- Force(host, r1.value, h3);
             Ok([a, b], h4))
  {
    RunTwo(codes, env, h);
    var r := RunAll(codes, env, h);
    if r.Ok? { ForceTwo(host, r.value[0], r.value[1], r.heap); }
  }

  /** `f(x, y)` on an identifier, with or without the plain-name shortcut. */
  lemma IdentifierCallForms(host: Host, name: string, args: seq<Expr>, right: Code, codes: seq<Code>, env: Env, h: Heap)
    requires |args| == |codes| == 2
    requires right(env, h) == Eval(host, Identifier(name), true, No, env, h)
    requires codes[0](env, h) == Eval(host, args[0], false, No, env, h)
    requires codes[0](env, h).Ok? ==>
               var h1 := codes[0](env, h).heap;
               codes[1](env, h1) == Eval(host, args[1], false, No, env, h1)
    ensures IdentifierTwoArgCall(host, name, args, codes)(env, h) == GeneralCall(host, right, codes, false, env, h)
  {
    TwoArgs(host, codes, env, h);
    var p0 := PathOf(args[0]);
    var p1 := PathOf(args[1]);
    if p0.Some? && |p0.value| == 1 && p1.Some? && |p1.value| == 1 {
      NameRead(host, args[0], env, h);
      NameRead(host, args[1], env, h);
    }
  }

  function GeneralObject(host: Host, codes: seq<CompiledProperty>, asReference: bool, env: Env, h: Heap): Outcome {
    var (slots, h1) :- RunProperties(host, codes, env, h, map[]);
    var (v, h2) := Alloc(h1, slots);
    Ok(Wrap(asReference, v), h2)
  }

  lemma RunOneProperty(host: Host, ps: seq<CompiledProperty>, env: Env, h: Heap, slots: Slots)
    requires |ps| >= 1 && ps[0].FixedCode?
    ensures RunProperties(host, ps, env, h, slots) ==
            (var (v, h1) :- ps[0].value(env, h); RunProperties(host, ps[1..], env, h1, slots[ps[0].key := v.value]))
  {
  }

  /** One, two and three fixed properties and the projection are the general object literal. */
  lemma ObjectForms(host: Host, ps: seq<Property>, codes: seq<CompiledProperty>, asReference: bool, env: Env, h: Heap)
    requires |codes| == |ps|
    requires forall i | 0 <= i < |ps| && ps[i].Fixed? :: codes[i].FixedCode? && codes[i].key == ps[i].key
    requires forall i | 0 <= i < |ps| && PathOf(ps[i].value).Some? ::
               codes[i].value(env, h) == Eval(host, ps[i].value, false, No, env, h)
    ensures CompileObject(host, ps, codes, asReference)(env, h) == GeneralObject(host, codes, asReference, env, h)
  {
    if !asReference && 1 <= |ps| <= 3 && AllFixed(ps) {
      RunOneProperty(host, codes, env, h, map[]);
      var r0 := codes[0].value(env, h);
      if |ps| >= 2 && r0.Ok? {
        var slots0: Slots := map[ps[0].key := r0.value.value];
        RunOneProperty(host, codes[1..], env, r0.heap, slots0);
        var r1 := codes[1].value(env, r0.heap);
        if |ps| == 3 && r1.Ok? {
          assert codes[1..][1..] == codes[2..];
          RunOneProperty(host, codes[2..], env, r1.heap, slots0[ps[1].key := r1.value.value]);
        }
      }
      if |ps| == 3 && IsProjection(PathOf(ps[0].value), PathOf(ps[1].value), PathOf(ps[2].value)) {
        PairRead(host, ps[0].value, env, h);
        PairRead(host, ps[1].value, env, h);
        PairRead(host, ps[2].value, env, h);
      }
    }
  }

  // ---- the theorem

  /** Main result: compiled code and evaluator agree on the answer, the heap and the exceptions. */
  lemma {:induction false} RecurseCorrect(host: Host, e: Expr, asReference: bool, create: Create, env: Env, h: Heap)
    ensures Recurse(host, e, asReference, create)(env, h) == Eval(host, e, asReference, create, env, h)
    decreases e, 2
  {
    if !asReference && create.No? && PathOf(e).Some? {
      GetterCorrect(host, e, env, h);
    } else {
      match e
      case Unary(_, operand) => UnaryCorrect(host, e, asReference, create, env, h);
      case Binary(op, left, right) =>
        BinaryCorrect(host, e, asReference, create, env, h);
      case Logical(op, left, right) =>
        LogicalCorrect(host, e, asReference, create, env, h);
      case Conditional(test, alternate, consequent) =>
        ConditionalCorrect(host, e, asReference, create, env, h);
      case Member(_, _) => MemberCorrect(host, e, asReference, create, env, h);
      case Computed(subject, index) =>
        ComputedCorrect(host, e, asReference, create, env, h);
      case Call(callee, args) =>
        if callee.Filter? { ThunkCallCorrect(host, e, asReference, create, env, h); }
        else { CallCorrect(host, e, asReference, create, env, h); }
      case Filter(filter, args) =>
        FilterCorrect(host, e, asReference, create, env, h);
      case Assignment(target, source) =>
        AssignmentCorrect(host, e, asReference, create, env, h);
      case Array(_) => ArrayCorrect(host, e, asReference, create, env, h);
      case ObjectLiteral(properties) => ObjectCorrect(host, e, asReference, create, env, h);
      case Update(_, _, _) => UpdateCorrect(host, e, asReference, create, env, h);
      case _ => LeafCorrect(host, e, asReference, create, env, h);
    }
  }

  lemma LeafCorrect(host: Host, e: Expr, asReference: bool, create: Create, env: Env, h: Heap)
    requires e.Literal? || e.Identifier? || e.This? || e.Locals? || e.AssignedValue?
    requires asReference || !create.No? || PathOf(e).None?
    ensures Recurse(host, e, asReference, create)(env, h) == Eval(host, e, asReference, create, env, h)
  {
  }

  lemma {:induction false} UnaryCorrect(host: Host, e: Expr, asReference: bool, create: Create, env: Env, h: Heap)
    requires e.Unary?
    ensures Recurse(host, e, asReference, create)(env, h) == Eval(host, e, asReference, create, env, h)
    decreases e, 1
  {
    RecurseCorrect(host, e.operand, false, No, env, h);
  }

  lemma {:induction false} MemberCorrect(host: Host, e: Expr, asReference: bool, create: Create, env: Env, h: Heap)
    requires e.Member? && (asReference || !create.No? || PathOf(e).None?)
    ensures Recurse(host, e, asReference, create)(env, h) == Eval(host, e, asReference, create, env, h)
    decreases e, 1
  {
    RecurseCorrect(host, e.subject, false, if create.No? then No else Yes, env, h);
  }

  lemma {:induction false} ArrayCorrect(host: Host, e: Expr, asReference: bool, create: Create, env: Env, h: Heap)
    requires e.Array?
    ensures Recurse(host, e, asReference, create)(env, h) == Eval(host, e, asReference, create, env, h)
    decreases e, 1
  {
    RunAllCorrect(host, e.elements, env, h);
  }

  lemma {:induction false} UpdateCorrect(host: Host, e: Expr, asReference: bool, create: Create, env: Env, h: Heap)
    requires e.Update?
    ensures Recurse(host, e, asReference, create)(env, h) == Eval(host, e, asReference, create, env, h)
    decreases e, 1
  {
    RecurseCorrect(host, e.argument, true, Leaf, env, h);
  }

  lemma {:induction false} BinaryCorrect(host: Host, e: Expr, asReference: bool, create: Create, env: Env, h: Heap)
    requires e.Binary?
    ensures Recurse(host, e, asReference, create)(env, h) == Eval(host, e, asReference, create, env, h)
    decreases e, 1
  {
    RecurseCorrect(host, e.left, false, No, env, h);
    var l := Eval(host, e.left, false, No, env, h);
    if l.Ok? { RecurseCorrect(host, e.right, false, No, env, l.heap); }
    if PathBinary(host, e.bop, e.left, e.right).Some? { BinaryFast(host, e.bop, e.left, e.right, create, env, h); }
  }

  lemma {:induction false} LogicalCorrect(host: Host, e: Expr, asReference: bool, create: Create, env: Env, h: Heap)
    requires e.Logical?
    ensures Recurse(host, e, asReference, create)(env, h) == Eval(host, e, asReference, create, env, h)
    decreases e, 1
  {
    RecurseCorrect(host, e.left, false, No, env, h);
    var l := Eval(host, e.left, false, No, env, h);
    if l.Ok? { RecurseCorrect(host, e.right, false, No, env, l.heap); }
    if PathLogical(host, e.lop, e.left, e.right).Some? { LogicalFast(host, e.lop, e.left, e.right, create, env, h); }
  }

  lemma {:induction false} FilterCorrect(host: Host, e: Expr, asReference: bool, create: Create, env: Env, h: Heap)
    requires e.Filter?
    ensures Recurse(host, e, asReference, create)(env, h) == Eval(host, e, asReference, create, env, h)
    decreases e, 1
  {
    RunAllCorrect(host, e.args, env, h);
    if |e.args| == 1 { RecurseCorrect(host, e.args[0], false, No, env, h); }
    FilterForms(host, e.filter, e.args, RecurseAll(host, e.args), asReference, env, h);
  }

  lemma {:induction false} ConditionalCorrect(host: Host, e: Expr, asReference: bool, create: Create, env: Env, h: Heap)
    requires e.Conditional?
    ensures Recurse(host, e, asReference, create)(env, h) == Eval(host, e, asReference, create, env, h)
    decreases e, 1
  {
    RecurseCorrect(host, e.test, false, No, env, h);
    var t := Eval(host, e.test, false, No, env, h);
    if t.Ok? {
      RecurseCorrect(host, e.alternate, false, No, env, t.heap);
      RecurseCorrect(host, e.consequent, false, No, env, t.heap);
    }
  }

  lemma {:induction false} ComputedCorrect(host: Host, e: Expr, asReference: bool, create: Create, env: Env, h: Heap)
    requires e.Computed?
    ensures Recurse(host, e, asReference, create)(env, h) == Eval(host, e, asReference, create, env, h)
    decreases e, 1
  {
    var deep := if create.No? then No else Yes;
    var left, right := Recurse(host, e.subject, false, deep), Recurse(host, e.index, false, No);
    RecurseCorrect(host, e.subject, false, deep, env, h);
    var s := left(env, h);
    if s.Ok? { RecurseCorrect(host, e.index, false, No, env, s.heap); }
    ComputedForm(host, e, left, right, asReference, create, env, h);
    assert Recurse(host, e, asReference, create) == CompileComputed(host, left, right, asReference, create);
  }

  lemma ComputedForm(host: Host, e: Expr, left: Code, right: Code, asReference: bool, create: Create, env: Env, h: Heap)
    requires e.Computed?
    requires left(env, h) == Eval(host, e.subject, false, if create.No? then No else Yes, env, h)
    requires left(env, h).Ok? ==>
               right(env, left(env, h).heap) == Eval(host, e.index, false, No, env, left(env, h).heap)
    ensures CompileComputed(host, left, right, asReference, create)(env, h)
            == Eval(host, e, asReference, create, env, h)
  {
  }

  lemma {:induction false} AssignmentCorrect(host: Host, e: Expr, asReference: bool, create: Create, env: Env, h: Heap)
    requires e.Assignment?
    ensures Recurse(host, e, asReference, create)(env, h) == Eval(host, e, asReference, create, env, h)
    decreases e, 1
  {
    RecurseCorrect(host, e.target, true, Leaf, env, h);
    var t := Eval(host, e.target, true, Leaf, env, h);
    if t.Ok? { RecurseCorrect(host, e.source, false, No, env, t.heap); }
  }

  /** A filter call as a callee: the thunk forms are the general order of evaluation. */
  lemma {:induction false} ThunkCallCorrect(host: Host, e: Expr, asReference: bool, create: Create, env: Env, h: Heap)
    requires e.Call? && e.callee.Filter?
    ensures Recurse(host, e, asReference, create)(env, h) == Eval(host, e, asReference, create, env, h)
    decreases e, 1
  {
    if 1 <= |e.callee.args| <= 2 {
      LateThunk(host, e, asReference, env, h);
    } else {
      EarlyThunk(host, e, asReference, env, h);
    }
  }

  /** The filter's one or two arguments are evaluated when the thunk is called. */
  lemma {:induction false} LateThunk(host: Host, e: Expr, asReference: bool, env: Env, h: Heap)
    requires e.Call? && e.callee.Filter?
    requires 1 <= |e.callee.args| <= 2
    ensures ThunkCall(host, e.callee.filter, RecurseAll(host, e.callee.args), RecurseAll(host, e.args),
            asReference)(env, h)
            == EvalThunkCall(host, e, asReference, env, h)
    decreases e, 0
  {
    var inner, args := e.callee.args, e.args;
    assert (e.callee decreases to inner);
    var fs := RecurseAll(host, inner);
    ThunkArguments(host, args, env, h);
    var a := EvalCallArgs(host, args, env, h);
    if a.Ok? {
      RunAllCorrect(host, inner, env, a.heap);
      if |inner| == 1 { RunOne(fs, env, a.heap); } else { RunTwo(fs, env, a.heap); }
    }
  }

  /** Other numbers of them are evaluated when it is made. */
  lemma {:induction false} EarlyThunk(host: Host, e: Expr, asReference: bool, env: Env, h: Heap)
    requires e.Call? && e.callee.Filter?
    requires |e.callee.args| < 1 || |e.callee.args| > 2
    ensures ThunkCall(host, e.callee.filter, RecurseAll(host, e.callee.args), RecurseAll(host, e.args),
            asReference)(env, h)
            == EvalThunkCall(host, e, asReference, env, h)
    decreases e, 0
  {
    var inner, args := e.callee.args, e.args;
    assert (e.callee decreases to inner);
    RunAllCorrect(host, inner, env, h);
    var f := EvalAll(host, inner, env, h);
    if f.Ok? { ThunkArguments(host, args, env, f.heap); }
  }

  lemma {:induction false} ThunkArguments(host: Host, args: seq<Expr>, env: Env, h: Heap)
    ensures RunArguments(host, RecurseAll(host, args), env, h) == EvalCallArgs(host, args, env, h)
    decreases args, 2
  {
    var codes := RecurseAll(host, args);
    CallArgsCorrect(host, args, env, h);
    if |args| == 1 { OneArg(host, codes, env, h); }
    if |args| == 2 { TwoArgs(host, codes, env, h); }
  }

  lemma {:induction false} CallCorrect(host: Host, e: Expr, asReference: bool, create: Create, env: Env, h: Heap)
    requires e.Call? && !e.callee.Filter?
    ensures Recurse(host, e, asReference, create)(env, h) == Eval(host, e, asReference, create, env, h)
    decreases e, 1
  {
    var right := Recurse(host, e.callee, true, No);
    var codes := RecurseAll(host, e.args);
    RecurseCorrect(host, e.callee, true, No, env, h);
    if |e.args| == 2 { FirstTwo(host, e.args, env, h); }
    CallForms(host, e.callee, e.args, right, codes, asReference, env, h);
    GeneralCallCorrect(host, e, asReference, create, env, h);
    assert Recurse(host, e, asReference, create) == CompileCall(host, e.callee, e.args, right, codes, asReference);
  }

  lemma {:induction false} GeneralCallCorrect(host: Host, e: Expr, asReference: bool, create: Create, env: Env, h: Heap)
    requires e.Call? && !e.callee.Filter?
    ensures GeneralCall(host, Recurse(host, e.callee, true, No), RecurseAll(host, e.args), asReference, env, h)
            == Eval(host, e, asReference, create, env, h)
    decreases e, 0
  {
    RecurseCorrect(host, e.callee, true, No, env, h);
    var f := Eval(host, e.callee, true, No, env, h);
    if f.Ok? { CallArgsCorrect(host, e.args, env, f.heap); }
  }

  lemma {:induction false} FirstTwo(host: Host, es: seq<Expr>, env: Env, h: Heap)
    requires |es| == 2
    ensures var codes := RecurseAll(host, es);
            && codes[0](env, h) == Eval(host, es[0], false, No, env, h)
            && (codes[0](env, h).Ok? ==>
                var h1 := codes[0](env, h).heap;
                codes[1](env, h1) == Eval(host, es[1], false, No, env, h1))
    decreases es, 0
  {
    var codes := RecurseAll(host, es);
    assert codes[0] == Recurse(host, es[0], false, No);
    assert codes[1] == RecurseAll(host, es[1..])[0] == Recurse(host, es[1], false, No);
    RecurseCorrect(host, es[0], false, No, env, h);
    var r0 := codes[0](env, h);
    if r0.Ok? { RecurseCorrect(host, es[1], false, No, env, r0.heap); }
  }

  lemma {:induction false} CallArgsCorrect(host: Host, es: seq<Expr>, env: Env, h: Heap)
    ensures RunCallArgs(host, RecurseAll(host, es), env, h) == EvalCallArgs(host, es, env, h)
    decreases es, 1
  {
    if |es| == 2 { RunAllCorrect(host, es, env, h); } else { RunForcedCorrect(host, es, env, h); }
  }

  lemma {:induction false} RunAllCorrect(host: Host, es: seq<Expr>, env: Env, h: Heap)
    ensures RunAll(RecurseAll(host, es), env, h) == EvalAll(host, es, env, h)
    decreases es, 0
  {
    if |es| > 0 {
      var codes := RecurseAll(host, es);
      assert codes[0] == Recurse(host, es[0], false, No) && codes[1..] == RecurseAll(host, es[1..]);
      RecurseCorrect(host, es[0], false, No, env, h);
      var r := Eval(host, es[0], false, No, env, h);
      if r.Ok? { RunAllCorrect(host, es[1..], env, r.heap); }
    }
  }

  lemma {:induction false} RunForcedCorrect(host: Host, es: seq<Expr>, env: Env, h: Heap)
    ensures RunForced(host, RecurseAll(host, es), env, h) == EvalForced(host, es, env, h)
    decreases es, 0
  {
    if |es| > 0 {
      var codes := RecurseAll(host, es);
      assert codes[0] == Recurse(host, es[0], false, No) && codes[1..] == RecurseAll(host, es[1..]);
      RecurseCorrect(host, es[0], false, No, env, h);
      var r := Eval(host, es[0], false, No, env, h);
      if r.Ok? {
        var v := Force(host, r.value.value, r.heap);
        if v.Ok? { RunForcedCorrect(host, es[1..], env, v.heap); }
      }
    }
  }

  lemma {:induction false} CompiledPropertyAt(host: Host, ps: seq<Property>, i: nat)
    requires i < |ps|
    ensures CompileProperties(host, ps)[i] == CompileProperty(host, ps[i])
    decreases |ps|
  {
    if i > 0 { CompiledPropertyAt(host, ps[1..], i - 1); }
  }

  lemma {:induction false} ObjectCorrect(host: Host, e: Expr, asReference: bool, create: Create, env: Env, h: Heap)
    requires e.ObjectLiteral?
    ensures Recurse(host, e, asReference, create)(env, h) == Eval(host, e, asReference, create, env, h)
    decreases e, 1
  {
    var ps := e.properties;
    var codes := CompileProperties(host, ps);
    forall i: nat | i < |ps|
      ensures ps[i].Fixed? ==> codes[i].FixedCode? && codes[i].key == ps[i].key
      ensures PathOf(ps[i].value).Some? ==> codes[i].value(env, h) == Eval(host, ps[i].value, false, No, env, h)
    {
      CompiledPropertyAt(host, ps, i);
      if PathOf(ps[i].value).Some? { GetterCorrect(host, ps[i].value, env, h); }
    }
    ObjectForms(host, ps, codes, asReference, env, h);
    RunPropertiesCorrect(host, ps, env, h, map[]);
  }

  lemma {:induction false} RunPropertiesCorrect(host: Host, ps: seq<Property>, env: Env, h: Heap, slots: Slots)
    ensures RunProperties(host, CompileProperties(host, ps), env, h, slots) == EvalProperties(host, ps, env, h, slots)
    decreases ps, 0
  {
    if |ps| > 0 {
      var codes := CompileProperties(host, ps);
      assert codes[0] == CompileProperty(host, ps[0]) && codes[1..] == CompileProperties(host, ps[1..]);
      PropertyCorrect(host, ps[0], env, h);
      var k := EvalKey(host, ps[0], env, h);
      if k.Ok? {
        var v := Eval(host, ps[0].value, false, No, env, k.heap);
        if v.Ok? { RunPropertiesCorrect(host, ps[1..], env, v.heap, slots[k.value := v.value.value]); }
      }
    }
  }

  lemma {:induction false} PropertyCorrect(host: Host, p: Property, env: Env, h: Heap)
    ensures var k := EvalKey(host, p, env, h);
            k.Ok? ==> CompileProperty(host, p).value(env, k.heap) == Eval(host, p.value, false, No, env, k.heap)
    ensures p.Keyed? ==> CompileProperty(host, p).keyCode(env, h) == Eval(host, p.keyExpr, false, No, env, h)
    decreases p, 1
  {
    if p.Keyed? { RecurseCorrect(host, p.keyExpr, false, No, env, h); }
    var k := EvalKey(host, p, env, h);
    if k.Ok? { RecurseCorrect(host, p.value, false, No, env, k.heap); }
  }

  /** Main result for a whole program: the compiled function is the program's meaning. */
  lemma CompileIsProgram(host: Host, body: seq<Expr>, env: Env, h: Heap)
    ensures Compile(host, body)(env, h) == EvalProgram(host, body, env, h)
  {
    if |body| == 1 {
      RecurseCorrect(host, body[0], false, No, env, h);
    } else if |body| > 1 {
      RunBodyCorrect(host, body, env, h, Plain(Undefined));
    }
  }

  lemma {:induction false} RunBodyCorrect(host: Host, body: seq<Expr>, env: Env, h: Heap, last: Answer)
    requires |body| >= 1
    ensures RunBody(RecurseAll(host, body), env, h, last) == EvalProgram(host, body, env, h)
    decreases |body|
  {
    var codes := RecurseAll(host, body);
    assert codes[0] == Recurse(host, body[0], false, No) && codes[1..] == RecurseAll(host, body[1..]);
    RecurseCorrect(host, body[0], false, No, env, h);
    var r := Eval(host, body[0], false, No, env, h);
    if r.Ok? && |body| > 1 {
      RunBodyCorrect(host, body[1..], env, r.heap, r.value);
    } else if r.Ok? {
      assert RunBody(codes[1..], env, r.heap, r.value) == Ok(r.value, r.heap);
    }
  }
}
