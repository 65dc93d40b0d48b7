/** What the constant flags and watch lists promise about evaluation. */
module WatchSoundness {
  import opened JsValues
  import opened Expressions
  import opened Semantics
  import opened Interpreter
  import opened CompileCorrect
  import opened AssignRead
  import opened WatchAnalysis
  import opened Lockstep

  ghost predicate Grows(h: Heap, h': Heap) {
    h.next <= h'.next && Kept(h.next, h, h') && (Tidy(h) ==> Tidy(h'))
  }

  lemma GrowsTransitively(h: Heap, h': Heap, h'': Heap)
    requires Grows(h, h') && Grows(h', h'')
    ensures Grows(h, h'')
  {
  }

  /** Filters, and functions if they may be called, only add objects. */
  ghost predicate TidyHost(host: Host, names: set<string>, calls: bool) {
    && (forall f | f in names :: TidyFilter(host, f))
    && (calls ==> forall f: nat :: TidyCall(host, f))
  }

  /** An effect-free expression only adds objects. */
  lemma {:induction false} EvalGrows(host: Host, names: set<string>, calls: bool, e: Expr, asReference: bool, env: Env,
      h: Heap)
    requires TidyHost(host, names, calls) && FiltersAmong(e, names) && EffectFree(e, calls)
    ensures Grows(h, Eval(host, e, asReference, No, env, h).heap)
    decreases e, 2
  {
    match e
    case Unary(_, operand) => EvalGrows(host, names, calls, operand, false, env, h);
    case Binary(_, left, right) => PairGrows(host, names, calls, e, left, right, env, h);
    case Logical(_, left, right) => PairGrows(host, names, calls, e, left, right, env, h);
    case Conditional(test, alternate, consequent) =>
      PairGrows(host, names, calls, e, test, alternate, env, h);
      PairGrows(host, names, calls, e, test, consequent, env, h);
    case Member(subject, _) => EvalGrows(host, names, calls, subject, false, env, h);
    case Computed(subject, index) => PairGrows(host, names, calls, e, subject, index, env, h);
    case Call(_, _) => CallGrows(host, names, e, asReference, env, h);
    case Filter(filter, args) =>
      EvalAllGrows(host, names, calls, args, env, h);
      var o := EvalAll(host, args, env, h);
      if o.Ok? { AddsGrows(h, o.heap, host.filter(filter, o.value, o.heap).heap); }
    case Array(elements) =>
      EvalAllGrows(host, names, calls, elements, env, h);
      var o := EvalAll(host, elements, env, h);
      if o.Ok? { AllocGrows(h, o.heap, ArraySlots(o.value)); }
    case ObjectLiteral(properties) =>
      EvalPropertiesGrows(host, names, calls, properties, env, h, map[]);
      var o := EvalProperties(host, properties, env, h, map[]);
      if o.Ok? { AllocGrows(h, o.heap, o.value); }
    case _ =>
  }

  lemma AddsGrows(h: Heap, h1: Heap, h2: Heap)
    requires Grows(h, h1) && OnlyAdds(h1, h2)
    ensures Grows(h, h2)
  {
    GrowsTransitively(h, h1, h2);
  }

  lemma {:induction false} CallGrows(host: Host, names: set<string>, e: Expr, asReference: bool, env: Env, h: Heap)
    requires e.Call? && TidyHost(host, names, true) && FiltersAmong(e, names) && EffectFree(e, true)
    ensures Grows(h, Eval(host, e, asReference, No, env, h).heap)
    decreases e, 1
  {
    if e.callee.Filter? {
      assert FiltersAmong(e.callee, names) && EffectFree(e.callee, true);
      ThunkGrows(host, names, e, asReference, env, h);
    } else {
      EvalGrows(host, names, true, e.callee, true, env, h);
      var f := Eval(host, e.callee, true, No, env, h);
      if f.Ok? && f.value.value.Func? {
        EvalCallArgsGrows(host, names, e.args, env, f.heap);
        var o := EvalCallArgs(host, e.args, env, f.heap);
        GrowsTransitively(h, f.heap, o.heap);
        if o.Ok? {
          assert TidyCall(host, f.value.value.id);
          AddsGrows(h, o.heap, host.call(f.value.value.id, f.value.context, o.value, o.heap).heap);
        }
      }
    }
  }

  lemma {:induction false} ThunkGrows(host: Host, names: set<string>, e: Expr, asReference: bool, env: Env, h: Heap)
    requires e.Call? && e.callee.Filter? && e.callee.filter in names && TidyHost(host, names, true)
    requires AllFiltersAmong(e.callee.args, names) && AllEffectFree(e.callee.args, true)
    requires AllFiltersAmong(e.args, names) && AllEffectFree(e.args, true)
    ensures Grows(h, EvalThunkCall(host, e, asReference, env, h).heap)
    decreases e, 0
  {
    var f, inner := e.callee.filter, e.callee.args;
    assert (e.callee decreases to inner) && TidyFilter(host, f);
    if 1 <= |inner| <= 2 {
      EvalCallArgsGrows(host, names, e.args, env, h);
      var a := EvalCallArgs(host, e.args, env, h);
      if a.Ok? {
        EvalAllGrows(host, names, true, inner, env, a.heap);
        var o := EvalAll(host, inner, env, a.heap);
        GrowsTransitively(h, a.heap, o.heap);
        if o.Ok? { AddsGrows(h, o.heap, host.filter(f, o.value, o.heap).heap); }
      }
    } else {
      EvalAllGrows(host, names, true, inner, env, h);
      var o := EvalAll(host, inner, env, h);
      if o.Ok? {
        EvalCallArgsGrows(host, names, e.args, env, o.heap);
        var a := EvalCallArgs(host, e.args, env, o.heap);
        GrowsTransitively(h, o.heap, a.heap);
        if a.Ok? { AddsGrows(h, a.heap, host.filter(f, o.value, a.heap).heap); }
      }
    }
  }

  lemma ForceGrows(host: Host, names: set<string>, v: Value, h: Heap, h1: Heap)
    requires TidyHost(host, names, true) && Grows(h, h1)
    ensures Grows(h, Force(host, v, h1).heap)
  {
    if v.Func? {
      assert TidyCall(host, v.id);
      AddsGrows(h, h1, host.call(v.id, Undefined, [], h1).heap);
    }
  }

  lemma {:induction false} ForceAllGrows(host: Host, names: set<string>, vs: seq<Value>, h: Heap, h1: Heap)
    requires TidyHost(host, names, true) && Grows(h, h1)
    ensures Grows(h, ForceAll(host, vs, h1).heap)
    decreases |vs|
  {
    if |vs| > 0 {
      ForceGrows(host, names, vs[0], h, h1);
      var o := Force(host, vs[0], h1);
      if o.Ok? { ForceAllGrows(host, names, vs[1..], h, o.heap); }
    }
  }

  lemma {:induction false} EvalForcedGrows(host: Host, names: set<string>, es: seq<Expr>, env: Env, h: Heap)
    requires TidyHost(host, names, true) && AllFiltersAmong(es, names) && AllEffectFree(es, true)
    ensures Grows(h, EvalForced(host, es, env, h).heap)
    decreases es, 0
  {
    if |es| > 0 {
      EvalGrows(host, names, true, es[0], false, env, h);
      var a := Eval(host, es[0], false, No, env, h);
      if a.Ok? {
        ForceGrows(host, names, a.value.value, h, a.heap);
        var o := Force(host, a.value.value, a.heap);
        if o.Ok? {
          EvalForcedGrows(host, names, es[1..], env, o.heap);
          GrowsTransitively(h, o.heap, EvalForced(host, es[1..], env, o.heap).heap);
        }
      }
    }
  }

  lemma {:induction false} EvalCallArgsGrows(host: Host, names: set<string>, es: seq<Expr>, env: Env, h: Heap)
    requires TidyHost(host, names, true) && AllFiltersAmong(es, names) && AllEffectFree(es, true)
    ensures Grows(h, EvalCallArgs(host, es, env, h).heap)
    decreases es, 1
  {
    if |es| != 2 {
      EvalForcedGrows(host, names, es, env, h);
    } else {
      EvalAllGrows(host, names, true, es, env, h);
      var o := EvalAll(host, es, env, h);
      if o.Ok? { ForceAllGrows(host, names, o.value, h, o.heap); }
    }
  }

  lemma AllocGrows(h: Heap, h1: Heap, slots: Slots)
    requires Grows(h, h1)
    ensures Grows(h, Alloc(h1, slots).1)
  {
    var h2 := Alloc(h1, slots).1;
    assert forall r: nat | r != h1.next :: SlotsOf(h2, r) == SlotsOf(h1, r);
  }

  lemma {:induction false} PairGrows(host: Host, names: set<string>, calls: bool, e: Expr, first: Expr, second: Expr,
      env: Env, h: Heap)
    requires TidyHost(host, names, calls) && FiltersAmong(first, names) && FiltersAmong(second, names)
    requires EffectFree(first, calls) && EffectFree(second, calls) && first < e && second < e
    ensures var l := Eval(host, first, false, No, env, h);
            Grows(h, l.heap) && (l.Ok? ==> Grows(h, Eval(host, second, false, No, env, l.heap).heap))
    decreases e, 0
  {
    EvalGrows(host, names, calls, first, false, env, h);
    var l := Eval(host, first, false, No, env, h);
    if l.Ok? {
      EvalGrows(host, names, calls, second, false, env, l.heap);
      GrowsTransitively(h, l.heap, Eval(host, second, false, No, env, l.heap).heap);
    }
  }

  lemma {:induction false} EvalAllGrows(host: Host, names: set<string>, calls: bool, es: seq<Expr>, env: Env, h: Heap)
    requires TidyHost(host, names, calls) && AllFiltersAmong(es, names) && AllEffectFree(es, calls)
    ensures Grows(h, EvalAll(host, es, env, h).heap)
    decreases es, 0
  {
    if |es| > 0 {
      EvalGrows(host, names, calls, es[0], false, env, h);
      var o := Eval(host, es[0], false, No, env, h);
      if o.Ok? {
        EvalAllGrows(host, names, calls, es[1..], env, o.heap);
        GrowsTransitively(h, o.heap, EvalAll(host, es[1..], env, o.heap).heap);
      }
    }
  }

  lemma {:induction false} EvalPropertiesGrows(host: Host, names: set<string>, calls: bool, ps: seq<Property>,
      env: Env, h: Heap, slots: Slots)
    requires TidyHost(host, names, calls) && PropertyFiltersAmong(ps, names) && PropertiesEffectFree(ps, calls)
    ensures Grows(h, EvalProperties(host, ps, env, h, slots).heap)
    decreases ps, 0
  {
    if |ps| > 0 {
      EvalKeyGrows(host, names, calls, ps[0], env, h);
      var k := EvalKey(host, ps[0], env, h);
      if k.Ok? {
        assert (ps[0] decreases to ps[0].value);
        EvalGrows(host, names, calls, ps[0].value, false, env, k.heap);
        var v := Eval(host, ps[0].value, false, No, env, k.heap);
        GrowsTransitively(h, k.heap, v.heap);
        if v.Ok? {
          var slots' := slots[k.value := v.value.value];
          EvalPropertiesGrows(host, names, calls, ps[1..], env, v.heap, slots');
          GrowsTransitively(h, v.heap, EvalProperties(host, ps[1..], env, v.heap, slots').heap);
        }
      }
    }
  }

  lemma {:induction false} EvalKeyGrows(host: Host, names: set<string>, calls: bool, p: Property, env: Env, h: Heap)
    requires TidyHost(host, names, calls) && KeyFiltersAmong(p, names) && KeyEffectFree(p, calls)
    ensures Grows(h, EvalKey(host, p, env, h).heap)
    decreases p, 0
  {
    if p.Keyed? { EvalGrows(host, names, calls, p.keyExpr, false, env, h); }
  }

  // ---- constants

  lemma ClosedIsTidy(h: Heap)
    requires Closed(h)
    ensures Tidy(h)
  {
  }

  lemma TidyTwins(b: nat, h1: Heap, h2: Heap)
    requires Tidy(h1) && Tidy(h2) && b <= h1.next && b <= h2.next
    ensures SameFresh(b, h1.next, h2.next, h1, h2)
  {
    forall k: nat ensures Twins(b, h1.next, h2.next, h1, h2, k) {
      assert SlotsOf(h1, h1.next + k) == map[] == SlotsOf(h2, h2.next + k);
    }
  }

  lemma ConstantEvalSame(host: Host, names: set<string>, e: Expr, env1: Env, env2: Env, h1: Heap, h2: Heap)
    requires Natural(host, names) && FiltersAmong(e, names) && IsConstant(e) && Closed(h1) && Closed(h2)
    ensures var o1 := Eval(host, e, false, No, env1, h1);
            var o2 := Eval(host, e, false, No, env2, h2);
            && SameOutcome(0, h1.next, h2.next, o1, o2)
            && Kept(h1.next, h1, o1.heap) && Kept(h2.next, h2, o2.heap)
  {
    ClosedIsTidy(h1);
    ClosedIsTidy(h2);
    TidyTwins(0, h1, h2);
    EvalSame(host, names, e, false, No, Runs(env1, env2, 0, h1.next, h2.next, false), h1, h2);
  }

  /**
   * Main result: a node marked constant compiles to code with one outcome whatever the scope, locals and heap,
   * if the filters it calls depend on their arguments and what these reach.
   */
  lemma ConstantIsConstant(host: Host, names: set<string>, e: Expr, env1: Env, env2: Env, h1: Heap, h2: Heap)
    requires Natural(host, names) && FiltersAmong(e, names) && IsConstant(e) && Closed(h1) && Closed(h2)
    ensures var o1 := Recurse(host, e, false, No)(env1, h1);
            var o2 := Recurse(host, e, false, No)(env2, h2);
            && SameOutcome(0, h1.next, h2.next, o1, o2)
            && Kept(h1.next, h1, o1.heap) && Kept(h2.next, h2, o2.heap)
  {
    RecurseCorrect(host, e, false, No, env1, h1);
    RecurseCorrect(host, e, false, No, env2, h2);
    ConstantEvalSame(host, names, e, env1, env2, h1, h2);
  }

  // ---- watch lists

  function Min(a: nat, b: nat): nat { if a < b then a else b }

  /** A watched node evaluates alike from the two heaps. */
  ghost predicate Unchanged(host: Host, w: Expr, env: Env, h1: Heap, h2: Heap) {
    SameOutcome(Min(h1.next, h2.next), h1.next, h2.next,
                Eval(host, w, false, No, env, h1), Eval(host, w, false, No, env, h2))
  }

  ghost predicate AllUnchanged(host: Host, ws: seq<Expr>, env: Env, h1: Heap, h2: Heap) {
    forall w | w in ws :: Unchanged(host, w, env, h1, h2)
  }

  // ---- the guard: what is looked into, by a coercion or a filter, holds nothing older than the run

  ghost predicate Inside(r: iset<nat>, v: Value) { v.Obj? ==> v.ref in r }

  /** These objects were made since `n` and hold no others. */
  ghost predicate NewOnly(r: iset<nat>, n: nat, h: Heap) {
    forall x | x in r :: x >= n && forall k | k in SlotsOf(h, x) :: Inside(r, SlotsOf(h, x)[k])
  }

  ghost predicate AllInside(r: iset<nat>, vs: seq<Value>) { forall v | v in vs :: Inside(r, v) }

  /** The values reach only objects made since `n`; in particular they may reach none. */
  ghost predicate OnlyNew(n: nat, h: Heap, vs: seq<Value>) {
    exists r: iset<nat> :: NewOnly(r, n, h) && AllInside(r, vs)
  }

  predicate NoObjects(vs: seq<Value>) { forall v | v in vs :: !v.Obj? }

  lemma NoObjectsAreNew(n: nat, h: Heap, vs: seq<Value>)
    requires NoObjects(vs)
    ensures OnlyNew(n, h, vs)
  {
    assert NewOnly(iset{}, n, h) && AllInside(iset{}, vs);
  }

  /** The operator looks into an operand that is an object. `+` never does: it returns the other operand. */
  predicate Coerces(op: BinaryOp, a: Value, b: Value) {
    match op
    case Arith(o) => !o.Add? && (a.Obj? || b.Obj?)
    case Rel(_) => a.Obj? || b.Obj?
    case Same => false
    case NotSame => false
    case Loose => a.Obj? != b.Obj? && !Nullish(a) && !Nullish(b)
    case NotLoose => a.Obj? != b.Obj? && !Nullish(a) && !Nullish(b)
  }

  /** The filter does not look into its arguments. */
  ghost predicate ShallowFilter(host: Host, f: string) {
    forall vs1, vs2, b: nat, n1: nat, n2: nat, h1, h2 |
      SameValues(b, n1, n2, vs1, vs2) && SameFresh(b, n1, n2, h1, h2) ::
      SameResult(b, n1, n2, host.filter(f, vs1, h1), host.filter(f, vs2, h2))
  }

  /**
   * Along a run that began with `n` objects: whatever is turned into a number, a string or a key, is compared by `<`
   * or `==` with something that is no object, or is handed to a filter that looks into its arguments, reaches only
   * objects of the run. Constants are exempt, and so are the nodes that are watched as a whole.
   */
  ghost predicate Guarded(host: Host, e: Expr, env: Env, n: nat, g: Heap)
    decreases e, 1
  {
    IsConstant(e) ||
    match e
    case Unary(op, operand) =>
      Guarded(host, operand, env, n, g) && NumberGuarded(n, op, Eval(host, operand, false, No, env, g))
    case Binary(op, left, right) =>
      && Guarded(host, left, env, n, g)
      && var l := Eval(host, left, false, No, env, g);
         l.Ok? ==>
           && Guarded(host, right, env, n, l.heap)
           && var r := Eval(host, right, false, No, env, l.heap);
              r.Ok? ==> OperandsGuarded(n, op, l.value.value, r.value.value, l.heap, r.heap)
    case Filter(f, args) =>
      AllGuarded(host, args, env, n, g) && ArgumentsGuarded(host, n, f, EvalAll(host, args, env, g))
    case Array(elements) => AllGuarded(host, elements, env, n, g)
    case ObjectLiteral(properties) => PropertiesGuarded(host, properties, env, n, g)
    case _ => true
  }

  ghost predicate NumberGuarded(n: nat, op: UnaryOp, o: Outcome) {
    o.Ok? && !op.Not? ==> OnlyNew(n, o.heap, [o.value.value])
  }

  /** `early` is the heap in which the left operand of `*`, `/` and `%` becomes a number. */
  ghost predicate OperandsGuarded(n: nat, op: BinaryOp, a: Value, c: Value, early: Heap, g: Heap) {
    Coerces(op, a, c) ==>
      if Early(op) then OnlyNew(n, early, [a]) && OnlyNew(n, g, [c]) else OnlyNew(n, g, [a, c])
  }

  ghost predicate ArgumentsGuarded(host: Host, n: nat, f: string, o: Result<seq<Value>>) {
    o.Ok? ==> ShallowFilter(host, f) || OnlyNew(n, o.heap, o.value)
  }

  ghost predicate AllGuarded(host: Host, es: seq<Expr>, env: Env, n: nat, g: Heap)
    decreases es, 0
  {
    |es| == 0 ||
    (&& Guarded(host, es[0], env, n, g)
     && var o := Eval(host, es[0], false, No, env, g);
        o.Ok? ==> AllGuarded(host, es[1..], env, n, o.heap))
  }

  ghost predicate PropertiesGuarded(host: Host, ps: seq<Property>, env: Env, n: nat, g: Heap)
    decreases ps, 0
  {
    |ps| == 0 ||
    (&& KeyGuarded(host, ps[0], env, n, g)
     && var k := EvalKey(host, ps[0], env, g);
        k.Ok? ==>
          assert (ps[0] decreases to ps[0].value);
          && Guarded(host, ps[0].value, env, n, k.heap)
          && var v := Eval(host, ps[0].value, false, No, env, k.heap);
             v.Ok? ==> PropertiesGuarded(host, ps[1..], env, n, v.heap))
  }

  ghost predicate KeyGuarded(host: Host, p: Property, env: Env, n: nat, g: Heap)
    decreases p, 0
  {
    p.Keyed? ==>
      && Guarded(host, p.keyExpr, env, n, g)
      && var k := Eval(host, p.keyExpr, false, No, env, g);
         k.Ok? ==> OnlyNew(n, k.heap, [k.value.value])
  }

  // ---- what is guarded is seen alike

  /** Objects of the two runs that correspond by position. */
  ghost function Offset(r: iset<nat>, n1: nat, n2: nat): Pairing {
    iset x: (nat, nat) | x.0 in r && x.0 >= n1 && x.1 >= n2 && x.0 - n1 == x.1 - n2
  }

  lemma InsidePaired(r: iset<nat>, m: nat, n1: nat, n2: nat, v1: Value, v2: Value)
    requires Inside(r, v1) && SameValue(m, n1, n2, v1, v2) && m <= n1 && (v1.Obj? ==> v1.ref >= n1)
    ensures Paired(Offset(r, n1, n2), v1, v2)
  {
  }

  lemma NewMatches(r: iset<nat>, m: nat, n1: nat, n2: nat, g1: Heap, g2: Heap)
    requires NewOnly(r, n1, g1) && SameFresh(m, n1, n2, g1, g2)
    ensures Matching(Offset(r, n1, n2), g1, g2) && Offset(r, n1, n2) <= Pairs(m, n1, n2)
  {
    var p := Offset(r, n1, n2);
    forall x | x in p ensures PairedSlots(p, SlotsOf(g1, x.0), SlotsOf(g2, x.1)) {
      var k: nat := x.0 - n1;
      assert Twins(m, n1, n2, g1, g2, k);
      forall key | key in SlotsOf(g1, x.0) ensures Paired(p, SlotsOf(g1, x.0)[key], SlotsOf(g2, x.1)[key]) {
        InsidePaired(r, m, n1, n2, SlotsOf(g1, x.0)[key], SlotsOf(g2, x.1)[key]);
      }
    }
  }

  /** A correspondence under which values that reach only new objects, and all they reach, are the same. */
  lemma NewPaired(m: nat, n1: nat, n2: nat, vs1: seq<Value>, vs2: seq<Value>, g1: Heap, g2: Heap) returns (p: Pairing)
    requires OnlyNew(n1, g1, vs1) && SameFresh(m, n1, n2, g1, g2) && SameValues(m, n1, n2, vs1, vs2)
    ensures Matching(p, g1, g2) && p <= Pairs(m, n1, n2) && PairedAll(p, vs1, vs2)
  {
    var r: iset<nat> :| NewOnly(r, n1, g1) && AllInside(r, vs1);
    p := Offset(r, n1, n2);
    NewMatches(r, m, n1, n2, g1, g2);
    forall i | 0 <= i < |vs1| ensures Paired(p, vs1[i], vs2[i]) {
      assert vs1[i] in vs1;
      InsidePaired(r, m, n1, n2, vs1[i], vs2[i]);
    }
  }

  lemma CoercedAlike(host: Host, m: nat, n1: nat, n2: nat, v1: Value, v2: Value, g1: Heap, g2: Heap)
    requires NaturalCoercions(host) && SameFresh(m, n1, n2, g1, g2) && SameValue(m, n1, n2, v1, v2)
    requires OnlyNew(n1, g1, [v1])
    ensures host.number(v1, g1) == host.number(v2, g2) && host.text(v1, g1) == host.text(v2, g2)
  {
    var p := NewPaired(m, n1, n2, [v1], [v2], g1, g2);
    assert Paired(p, [v1][0], [v2][0]);
  }

  lemma ComparedAlike(host: Host, m: nat, n1: nat, n2: nat, a1: Value, a2: Value, c1: Value, c2: Value,
                      g1: Heap, g2: Heap)
    requires NaturalCoercions(host) && SameFresh(m, n1, n2, g1, g2)
    requires SameValue(m, n1, n2, a1, a2) && SameValue(m, n1, n2, c1, c2) && OnlyNew(n1, g1, [a1, c1])
    ensures host.looselyEqual(a1, c1, g1) == host.looselyEqual(a2, c2, g2)
    ensures forall op :: host.relation(op, a1, c1, g1) == host.relation(op, a2, c2, g2)
  {
    var p := NewPaired(m, n1, n2, [a1, c1], [a2, c2], g1, g2);
    assert Paired(p, [a1, c1][0], [a2, c2][0]) && Paired(p, [a1, c1][1], [a2, c2][1]);
  }

  /** Each of two values that reach only new objects does. */
  lemma EachOfTwo(n: nat, h: Heap, a: Value, c: Value)
    requires OnlyNew(n, h, [a, c])
    ensures OnlyNew(n, h, [a]) && OnlyNew(n, h, [c])
  {
    var r: iset<nat> :| NewOnly(r, n, h) && AllInside(r, [a, c]);
    assert a in [a, c] && c in [a, c];
    assert AllInside(r, [a]) && AllInside(r, [c]);
  }

  lemma PlusGuarded(host: Host, m: nat, n1: nat, n2: nat, a1: Value, a2: Value, c1: Value, c2: Value,
                    g1: Heap, g2: Heap)
    requires NaturalCoercions(host) && SameFresh(m, n1, n2, g1, g2)
    requires SameValue(m, n1, n2, a1, a2) && SameValue(m, n1, n2, c1, c2)
    ensures SameValue(m, n1, n2, ApplyPlus(host, a1, c1, g1), ApplyPlus(host, a2, c2, g2))
  {
    if !a1.Obj? && !c1.Obj? {
      NoObjectsAreNew(n1, g1, [a1]);
      NoObjectsAreNew(n1, g1, [c1]);
      CoercedAlike(host, m, n1, n2, a1, a2, g1, g2);
      CoercedAlike(host, m, n1, n2, c1, c2, g1, g2);
    }
  }

  lemma NumbersGuarded(host: Host, m: nat, n1: nat, n2: nat, op: BinaryOp, a1: Value, a2: Value, c1: Value, c2: Value,
                       e1: Heap, e2: Heap, g1: Heap, g2: Heap)
    requires NaturalCoercions(host) && SameFresh(m, n1, n2, e1, e2) && SameFresh(m, n1, n2, g1, g2)
    requires SameValue(m, n1, n2, a1, a2) && SameValue(m, n1, n2, c1, c2)
    requires op.Arith? && !op.arith.Add? && OperandsGuarded(n1, op, a1, c1, e1, g1)
    ensures ApplyBinary(host, op, a1, c1, e1, g1) == ApplyBinary(host, op, a2, c2, e2, g2)
  {
    if !Coerces(op, a1, c1) {
      NoObjectsAreNew(n1, e1, [a1]);
      NoObjectsAreNew(n1, g1, [a1]);
      NoObjectsAreNew(n1, g1, [c1]);
    } else if !Early(op) {
      EachOfTwo(n1, g1, a1, c1);
    }
    if Early(op) {
      CoercedAlike(host, m, n1, n2, a1, a2, e1, e2);
    } else {
      CoercedAlike(host, m, n1, n2, a1, a2, g1, g2);
    }
    CoercedAlike(host, m, n1, n2, c1, c2, g1, g2);
  }

  lemma ComparisonGuarded(host: Host, m: nat, n1: nat, n2: nat, op: BinaryOp,
                          a1: Value, a2: Value, c1: Value, c2: Value, e1: Heap, e2: Heap, g1: Heap, g2: Heap)
    requires NaturalCoercions(host) && SameFresh(m, n1, n2, g1, g2)
    requires SameValue(m, n1, n2, a1, a2) && SameValue(m, n1, n2, c1, c2)
    requires !op.Arith? && OperandsGuarded(n1, op, a1, c1, e1, g1)
    ensures ApplyBinary(host, op, a1, c1, e1, g1) == ApplyBinary(host, op, a2, c2, e2, g2)
  {
    if !a1.Obj? && !c1.Obj? { NoObjectsAreNew(n1, g1, [a1, c1]); }
    if (!a1.Obj? && !c1.Obj?) || Coerces(op, a1, c1) { ComparedAlike(host, m, n1, n2, a1, a2, c1, c2, g1, g2); }
  }

  lemma OperatorGuarded(host: Host, m: nat, n1: nat, n2: nat, op: BinaryOp, a1: Value, a2: Value, c1: Value, c2: Value,
                        e1: Heap, e2: Heap, g1: Heap, g2: Heap)
    requires NaturalCoercions(host) && SameFresh(m, n1, n2, e1, e2) && SameFresh(m, n1, n2, g1, g2)
    requires SameValue(m, n1, n2, a1, a2) && SameValue(m, n1, n2, c1, c2)
    requires OperandsGuarded(n1, op, a1, c1, e1, g1)
    ensures SameValue(m, n1, n2, ApplyBinary(host, op, a1, c1, e1, g1), ApplyBinary(host, op, a2, c2, e2, g2))
  {
    if op == Arith(Add) {
      PlusGuarded(host, m, n1, n2, a1, a2, c1, c2, g1, g2);
    } else if op.Arith? {
      NumbersGuarded(host, m, n1, n2, op, a1, a2, c1, c2, e1, e2, g1, g2);
    } else {
      ComparisonGuarded(host, m, n1, n2, op, a1, a2, c1, c2, e1, e2, g1, g2);
    }
  }

  lemma ArgumentsDecide(host: Host, f: string, m: nat, n1: nat, n2: nat,
                        vs1: seq<Value>, vs2: seq<Value>, g1: Heap, g2: Heap)
    requires NaturalFilter(host, f) && TidyFilter(host, f)
    requires SameFresh(m, n1, n2, g1, g2) && SameValues(m, n1, n2, vs1, vs2)
    requires ShallowFilter(host, f) || OnlyNew(n1, g1, vs1)
    ensures SameResult(m, n1, n2, host.filter(f, vs1, g1), host.filter(f, vs2, g2))
  {
    if !ShallowFilter(host, f) {
      var p := NewPaired(m, n1, n2, vs1, vs2, g1, g2);
      FilterResultSame(host, f, p, m, n1, n2, vs1, vs2, g1, g2);
    }
  }

  // ---- two runs, each shifted

  lemma ComposeValue(n1: nat, n2: nat, d: nat, b1: Value, g1: Value, b2: Value, g2: Value)
    requires SameValue(n1, n1, n1 + d, b1, g1) && SameValue(n2, n2, n2 + d, b2, g2)
    requires SameValue(Min(n1, n2), n1, n2, b1, b2)
    ensures SameValue(Min(n1, n2), n1, n2, g1, g2)
  {
  }

  lemma ComposeSlots(n1: nat, n2: nat, d: nat, b1: Slots, g1: Slots, b2: Slots, g2: Slots)
    requires SameSlots(n1, n1, n1 + d, b1, g1) && SameSlots(n2, n2, n2 + d, b2, g2)
    requires SameSlots(Min(n1, n2), n1, n2, b1, b2)
    ensures SameSlots(Min(n1, n2), n1, n2, g1, g2)
  {
    forall k | k in g1 ensures SameValue(Min(n1, n2), n1, n2, g1[k], g2[k]) {
      ComposeValue(n1, n2, d, b1[k], g1[k], b2[k], g2[k]);
    }
  }

  /** Two runs each shifted by the same number of earlier objects are still alike. */
  lemma ComposeFresh(n1: nat, n2: nat, d: nat, b1: Heap, b2: Heap, g1: Heap, g2: Heap, o1: Heap, o2: Heap)
    requires g1.next == n1 + d && g2.next == n2 + d && SameFresh(Min(n1, n2), n1, n2, g1, g2)
    requires SameFresh(n1, n1, n1 + d, b1, o1) && SameFresh(n2, n2, n2 + d, b2, o2)
    requires SameFresh(Min(n1, n2), n1, n2, b1, b2)
    requires Kept(g1.next, g1, o1) && Kept(g2.next, g2, o2)
    ensures SameFresh(Min(n1, n2), n1, n2, o1, o2)
  {
    forall k: nat ensures Twins(Min(n1, n2), n1, n2, o1, o2, k) {
      if k < d {
        assert Twins(Min(n1, n2), n1, n2, g1, g2, k);
        assert SlotsOf(o1, n1 + k) == SlotsOf(g1, n1 + k) && SlotsOf(o2, n2 + k) == SlotsOf(g2, n2 + k);
      } else {
        var j: nat := k - d;
        assert Twins(n1, n1, n1 + d, b1, o1, j) && Twins(n2, n2, n2 + d, b2, o2, j);
        assert Twins(Min(n1, n2), n1, n2, b1, b2, j);
        ComposeSlots(n1, n2, d, SlotsOf(b1, n1 + j), SlotsOf(o1, n1 + k), SlotsOf(b2, n2 + j), SlotsOf(o2, n2 + k));
      }
    }
  }

  /** g is h after some earlier part of the expression has added its objects. */
  ghost predicate Later(h: Heap, g: Heap) { Closed(h) && Tidy(g) && h.next <= g.next && Kept(h.next, h, g) }

  lemma QuietAbove(host: Host, b: nat, c: nat)
    requires QuietCalls(host, b) && b <= c
    ensures QuietCalls(host, c)
  {
    forall f: nat ensures NaturalCall(host, f, c) && TidyCall(host, f) {
      assert NaturalCall(host, f, b) && TidyCall(host, f);
      forall p, c1, c2, vs1, vs2, h1, h2 |
        Matching(p, h1, h2) && SharedBelow(p, c) && Paired(p, c1, c2) && PairedAll(p, vs1, vs2)
        ensures SameMade(p, h1, h2, host.call(f, c1, vs1, h1), host.call(f, c2, vs2, h2))
      {
        assert SharedBelow(p, b);
      }
    }
  }

  /** A run from a later heap is the run from the original one, shifted. */
  lemma ShiftedRun(host: Host, names: set<string>, calls: bool, e: Expr, env: Env, h: Heap, g: Heap)
    requires Natural(host, names) && (calls ==> QuietCalls(host, h.next))
    requires FiltersAmong(e, names) && EffectFree(e, calls) && Later(h, g) && EnvKnown(env, h)
    ensures SameOutcome(h.next, h.next, g.next, Eval(host, e, false, No, env, h), Eval(host, e, false, No, env, g))
  {
    ClosedIsTidy(h);
    TidyTwins(h.next, h, g);
    assert Shared(h.next, h, g);
    EvalSame(host, names, e, false, No, Runs(env, env, h.next, h.next, g.next, calls), h, g);
  }

  /** The two runs are at corresponding points of the same expression. */
  ghost predicate Aligned(h1: Heap, h2: Heap, g1: Heap, g2: Heap) {
    Later(h1, g1) && Later(h2, g2) && SameFresh(Min(h1.next, h2.next), h1.next, h2.next, g1, g2)
  }

  /** Functions that may be called look at what both heaps know, besides their context and arguments. */
  ghost predicate Suits(host: Host, names: set<string>, calls: bool, h1: Heap, h2: Heap) {
    Natural(host, names) && (calls ==> QuietCalls(host, Min(h1.next, h2.next)))
  }

  /** So are the environment and the host. */
  ghost predicate Watching(host: Host, names: set<string>, calls: bool, env: Env, h1: Heap, h2: Heap, g1: Heap,
      g2: Heap) {
    && Suits(host, names, calls, h1, h2) && Aligned(h1, h2, g1, g2) && EnvKnown(env, h1) && EnvKnown(env, h2)
  }

  /** The expression comes out the same at that point. */
  ghost predicate Follows(host: Host, e: Expr, env: Env, h1: Heap, h2: Heap, g1: Heap, g2: Heap) {
    SameOutcome(Min(h1.next, h2.next), h1.next, h2.next,
                Eval(host, e, false, No, env, g1), Eval(host, e, false, No, env, g2))
  }

  lemma ComposeOutcome(n1: nat, n2: nat, b1: Outcome, b2: Outcome, g1: Heap, g2: Heap, o1: Outcome, o2: Outcome)
    requires n1 <= g1.next && n2 <= g2.next && SameFresh(Min(n1, n2), n1, n2, g1, g2)
    requires SameOutcome(n1, n1, g1.next, b1, o1) && SameOutcome(n2, n2, g2.next, b2, o2)
    requires SameOutcome(Min(n1, n2), n1, n2, b1, b2)
    requires Kept(g1.next, g1, o1.heap) && Kept(g2.next, g2, o2.heap)
    requires b1.Ok? ==> !b1.value.Reference?
    ensures SameOutcome(Min(n1, n2), n1, n2, o1, o2)
  {
    var d := g1.next - n1;
    if b1.Ok? {
      ComposeValue(n1, n2, d, b1.value.value, o1.value.value, b2.value.value, o2.value.value);
      ComposeFresh(n1, n2, d, b1.heap, b2.heap, g1, g2, o1.heap, o2.heap);
    }
  }

  lemma QuietIsTidy(host: Host, names: set<string>, b: nat)
    requires Natural(host, names) && QuietCalls(host, b)
    ensures TidyHost(host, names, true)
  {
    forall f: nat ensures TidyCall(host, f) { assert NaturalCall(host, f, b) && TidyCall(host, f); }
  }

  lemma WatchedLeaf(host: Host, names: set<string>, calls: bool, e: Expr, env: Env, h1: Heap, h2: Heap, g1: Heap,
      g2: Heap)
    requires Watching(host, names, calls, env, h1, h2, g1, g2) && FiltersAmong(e, names) && EffectFree(e, calls)
    requires Unchanged(host, e, env, h1, h2)
    ensures Follows(host, e, env, h1, h2, g1, g2)
  {
    var b := Min(h1.next, h2.next);
    if calls {
      QuietAbove(host, b, h1.next);
      QuietAbove(host, b, h2.next);
      QuietIsTidy(host, names, b);
    }
    ShiftedRun(host, names, calls, e, env, h1, g1);
    ShiftedRun(host, names, calls, e, env, h2, g2);
    EvalGrows(host, names, calls, e, false, env, g1);
    EvalGrows(host, names, calls, e, false, env, g2);
    ComposeOutcome(h1.next, h2.next, Eval(host, e, false, No, env, h1), Eval(host, e, false, No, env, h2),
                   g1, g2, Eval(host, e, false, No, env, g1), Eval(host, e, false, No, env, g2));
  }

  /** What shares nothing shares nothing below any bound. */
  lemma RaiseBound(b: nat, n1: nat, n2: nat, o1: Outcome, o2: Outcome)
    requires SameOutcome(0, n1, n2, o1, o2) && b <= n1 && b <= n2
    ensures SameOutcome(b, n1, n2, o1, o2)
  {
    if o1.Ok? {
      forall k: nat ensures Twins(b, n1, n2, o1.heap, o2.heap, k) {
        assert Twins(0, n1, n2, o1.heap, o2.heap, k);
      }
    }
  }

  lemma ConstantUnchanged(host: Host, names: set<string>, e: Expr, env: Env, h1: Heap, h2: Heap)
    requires Natural(host, names) && FiltersAmong(e, names) && IsConstant(e) && Closed(h1) && Closed(h2)
    ensures Unchanged(host, e, env, h1, h2)
  {
    ConstantEvalSame(host, names, e, env, env, h1, h2);
    RaiseBound(Min(h1.next, h2.next), h1.next, h2.next, Eval(host, e, false, No, env, h1),
               Eval(host, e, false, No, env, h2));
  }

  lemma StillWatching(host: Host, names: set<string>, calls: bool, env: Env, h1: Heap, h2: Heap, g1: Heap, g2: Heap,
                      o1: Heap, o2: Heap)
    requires Watching(host, names, calls, env, h1, h2, g1, g2) && Grows(g1, o1) && Grows(g2, o2)
    requires SameFresh(Min(h1.next, h2.next), h1.next, h2.next, o1, o2)
    ensures Watching(host, names, calls, env, h1, h2, o1, o2)
  {
  }

  /** Equal watches make equal values, wherever in a larger expression the node is evaluated. */
  lemma {:induction false} WatchedSame(host: Host, names: set<string>, calls: bool, e: Expr, env: Env, h1: Heap,
      h2: Heap, g1: Heap, g2: Heap)
    requires Watching(host, names, calls, env, h1, h2, g1, g2) && FiltersAmong(e, names) && EffectFree(e, calls)
    requires AllUnchanged(host, ToWatch(e), env, h1, h2) && Guarded(host, e, env, h1.next, g1)
    ensures Follows(host, e, env, h1, h2, g1, g2)
    decreases e, 1
  {
    if IsConstant(e) {
      ConstantUnchanged(host, names, e, env, h1, h2);
      WatchedLeaf(host, names, calls, e, env, h1, h2, g1, g2);
      return;
    }
    match e
    case Unary(_, _) => WatchedUnary(host, names, calls, e, env, h1, h2, g1, g2);
    case Binary(_, _, _) => WatchedBinary(host, names, calls, e, env, h1, h2, g1, g2);
    case Filter(_, _) => WatchedFilter(host, names, calls, e, env, h1, h2, g1, g2);
    case Array(_) => WatchedArray(host, names, calls, e, env, h1, h2, g1, g2);
    case ObjectLiteral(_) => WatchedObject(host, names, calls, e, env, h1, h2, g1, g2);
    case Identifier(_) => WatchedWhole(host, names, calls, e, env, h1, h2, g1, g2);
    case Logical(_, _, _) => WatchedWhole(host, names, calls, e, env, h1, h2, g1, g2);
    case Conditional(_, _, _) => WatchedWhole(host, names, calls, e, env, h1, h2, g1, g2);
    case Member(_, _) => WatchedWhole(host, names, calls, e, env, h1, h2, g1, g2);
    case Computed(_, _) => WatchedWhole(host, names, calls, e, env, h1, h2, g1, g2);
    case Call(_, _) => WatchedWhole(host, names, calls, e, env, h1, h2, g1, g2);
    case _ => WatchedNothing(host, names, calls, e, env, h1, h2, g1, g2);
  }

  /** `this` and the locals. */
  lemma WatchedNothing(host: Host, names: set<string>, calls: bool, e: Expr, env: Env, h1: Heap, h2: Heap, g1: Heap,
      g2: Heap)
    requires Watching(host, names, calls, env, h1, h2, g1, g2) && (e.This? || e.Locals?)
    ensures Follows(host, e, env, h1, h2, g1, g2)
  {
  }

  /** Nodes that watch themselves unless they are constant. */
  lemma WatchedWhole(host: Host, names: set<string>, calls: bool, e: Expr, env: Env, h1: Heap, h2: Heap, g1: Heap,
      g2: Heap)
    requires e.Identifier? || e.Logical? || e.Conditional? || e.Member? || e.Computed? || e.Call?
    requires Watching(host, names, calls, env, h1, h2, g1, g2) && FiltersAmong(e, names) && EffectFree(e, calls)
    requires AllUnchanged(host, ToWatch(e), env, h1, h2)
    ensures Follows(host, e, env, h1, h2, g1, g2)
  {
    if IsConstant(e) {
      ConstantUnchanged(host, names, e, env, h1, h2);
    } else {
      assert e in ToWatch(e);
    }
    WatchedLeaf(host, names, calls, e, env, h1, h2, g1, g2);
  }

  lemma {:induction false} WatchedUnary(host: Host, names: set<string>, calls: bool, e: Expr, env: Env, h1: Heap,
      h2: Heap, g1: Heap, g2: Heap)
    requires e.Unary? && !IsConstant(e)
    requires Watching(host, names, calls, env, h1, h2, g1, g2) && FiltersAmong(e, names) && EffectFree(e, calls)
    requires AllUnchanged(host, ToWatch(e), env, h1, h2) && Guarded(host, e, env, h1.next, g1)
    ensures Follows(host, e, env, h1, h2, g1, g2)
    decreases e, 0
  {
    WatchedSame(host, names, calls, e.operand, env, h1, h2, g1, g2);
    var o1 := Eval(host, e.operand, false, No, env, g1);
    var o2 := Eval(host, e.operand, false, No, env, g2);
    if o1.Ok? && !e.uop.Not? {
      CoercedAlike(host, Min(h1.next, h2.next), h1.next, h2.next, o1.value.value, o2.value.value, o1.heap, o2.heap);
    }
  }

  lemma {:induction false} WatchedBinary(host: Host, names: set<string>, calls: bool, e: Expr, env: Env, h1: Heap,
      h2: Heap, g1: Heap, g2: Heap)
    requires e.Binary? && !IsConstant(e)
    requires Watching(host, names, calls, env, h1, h2, g1, g2) && FiltersAmong(e, names) && EffectFree(e, calls)
    requires AllUnchanged(host, ToWatch(e), env, h1, h2) && Guarded(host, e, env, h1.next, g1)
    ensures Follows(host, e, env, h1, h2, g1, g2)
    decreases e, 0
  {
    WatchedSame(host, names, calls, e.left, env, h1, h2, g1, g2);
    var l1 := Eval(host, e.left, false, No, env, g1);
    var l2 := Eval(host, e.left, false, No, env, g2);
    if l1.Ok? {
      EvalGrows(host, names, calls, e.left, false, env, g1);
      EvalGrows(host, names, calls, e.left, false, env, g2);
      StillWatching(host, names, calls, env, h1, h2, g1, g2, l1.heap, l2.heap);
      WatchedSame(host, names, calls, e.right, env, h1, h2, l1.heap, l2.heap);
      var r1 := Eval(host, e.right, false, No, env, l1.heap);
      var r2 := Eval(host, e.right, false, No, env, l2.heap);
      if r1.Ok? {
        OperatorGuarded(host, Min(h1.next, h2.next), h1.next, h2.next, e.bop, l1.value.value, l2.value.value,
                        r1.value.value, r2.value.value, l1.heap, l2.heap, r1.heap, r2.heap);
      }
    }
  }

  lemma {:induction false} WatchedFilter(host: Host, names: set<string>, calls: bool, e: Expr, env: Env, h1: Heap,
      h2: Heap, g1: Heap, g2: Heap)
    requires e.Filter? && !IsConstant(e)
    requires Watching(host, names, calls, env, h1, h2, g1, g2) && FiltersAmong(e, names) && EffectFree(e, calls)
    requires AllUnchanged(host, ToWatch(e), env, h1, h2) && Guarded(host, e, env, h1.next, g1)
    ensures Follows(host, e, env, h1, h2, g1, g2)
    decreases e, 0
  {
    WatchedAll(host, names, calls, e.args, env, h1, h2, g1, g2);
    var o1, o2 := EvalAll(host, e.args, env, g1), EvalAll(host, e.args, env, g2);
    if o1.Ok? {
      ArgumentsDecide(host, e.filter, Min(h1.next, h2.next), h1.next, h2.next, o1.value, o2.value, o1.heap, o2.heap);
    }
  }

  lemma {:induction false} WatchedArray(host: Host, names: set<string>, calls: bool, e: Expr, env: Env, h1: Heap,
      h2: Heap, g1: Heap, g2: Heap)
    requires e.Array? && !IsConstant(e)
    requires Watching(host, names, calls, env, h1, h2, g1, g2) && FiltersAmong(e, names) && EffectFree(e, calls)
    requires AllUnchanged(host, ToWatch(e), env, h1, h2) && Guarded(host, e, env, h1.next, g1)
    ensures Follows(host, e, env, h1, h2, g1, g2)
    decreases e, 0
  {
    WatchedAll(host, names, calls, e.elements, env, h1, h2, g1, g2);
    var m := Min(h1.next, h2.next);
    var o1, o2 := EvalAll(host, e.elements, env, g1), EvalAll(host, e.elements, env, g2);
    if o1.Ok? {
      ArraySlotsSame(m, h1.next, h2.next, o1.value, o2.value);
      AllocSame(m, h1.next, h2.next, ArraySlots(o1.value), ArraySlots(o2.value), o1.heap, o2.heap);
    }
  }

  lemma {:induction false} WatchedObject(host: Host, names: set<string>, calls: bool, e: Expr, env: Env, h1: Heap,
      h2: Heap, g1: Heap, g2: Heap)
    requires e.ObjectLiteral? && !IsConstant(e)
    requires Watching(host, names, calls, env, h1, h2, g1, g2) && FiltersAmong(e, names) && EffectFree(e, calls)
    requires AllUnchanged(host, ToWatch(e), env, h1, h2) && Guarded(host, e, env, h1.next, g1)
    ensures Follows(host, e, env, h1, h2, g1, g2)
    decreases e, 0
  {
    WatchedProperties(host, names, calls, e.properties, env, h1, h2, g1, g2, map[], map[]);
    var o1 := EvalProperties(host, e.properties, env, g1, map[]);
    var o2 := EvalProperties(host, e.properties, env, g2, map[]);
    if o1.Ok? {
      AllocSame(Min(h1.next, h2.next), h1.next, h2.next, o1.value, o2.value, o1.heap, o2.heap);
    }
  }

  lemma {:induction false} WatchedAll(host: Host, names: set<string>, calls: bool, es: seq<Expr>, env: Env, h1: Heap,
      h2: Heap, g1: Heap, g2: Heap)
    requires Watching(host, names, calls, env, h1, h2, g1, g2) && AllFiltersAmong(es, names) && AllEffectFree(es, calls)
    requires AllUnchanged(host, ToWatchAll(es), env, h1, h2) && AllGuarded(host, es, env, h1.next, g1)
    ensures SameList(Min(h1.next, h2.next), h1.next, h2.next, EvalAll(host, es, env, g1), EvalAll(host, es, env, g2))
    decreases es, 0
  {
    if |es| > 0 {
      WatchedSame(host, names, calls, es[0], env, h1, h2, g1, g2);
      var o1 := Eval(host, es[0], false, No, env, g1);
      var o2 := Eval(host, es[0], false, No, env, g2);
      if o1.Ok? {
        EvalGrows(host, names, calls, es[0], false, env, g1);
        EvalGrows(host, names, calls, es[0], false, env, g2);
        StillWatching(host, names, calls, env, h1, h2, g1, g2, o1.heap, o2.heap);
        WatchedAll(host, names, calls, es[1..], env, h1, h2, o1.heap, o2.heap);
      }
    }
  }

  lemma {:induction false} WatchedProperties(host: Host, names: set<string>, calls: bool, ps: seq<Property>, env: Env,
                                             h1: Heap, h2: Heap, g1: Heap, g2: Heap, slots1: Slots, slots2: Slots)
    requires Watching(host, names, calls, env, h1, h2, g1, g2) && PropertyFiltersAmong(ps, names)
    requires PropertiesEffectFree(ps, calls)
    requires AllUnchanged(host, ToWatchProperties(ps), env, h1, h2) && PropertiesGuarded(host, ps, env, h1.next, g1)
    requires SameSlots(Min(h1.next, h2.next), h1.next, h2.next, slots1, slots2)
    ensures SameBuilt(Min(h1.next, h2.next), h1.next, h2.next,
                      EvalProperties(host, ps, env, g1, slots1), EvalProperties(host, ps, env, g2, slots2))
    decreases ps, 0
  {
    if |ps| > 0 {
      WatchedKey(host, names, calls, ps[0], env, h1, h2, g1, g2);
      var k1 := EvalKey(host, ps[0], env, g1);
      var k2 := EvalKey(host, ps[0], env, g2);
      if k1.Ok? {
        assert (ps[0] decreases to ps[0].value);
        WatchedSame(host, names, calls, ps[0].value, env, h1, h2, k1.heap, k2.heap);
        var v1 := Eval(host, ps[0].value, false, No, env, k1.heap);
        var v2 := Eval(host, ps[0].value, false, No, env, k2.heap);
        if v1.Ok? {
          EvalGrows(host, names, calls, ps[0].value, false, env, k1.heap);
          EvalGrows(host, names, calls, ps[0].value, false, env, k2.heap);
          StillWatching(host, names, calls, env, h1, h2, k1.heap, k2.heap, v1.heap, v2.heap);
          WatchedProperties(host, names, calls, ps[1..], env, h1, h2, v1.heap, v2.heap,
                            slots1[k1.value := v1.value.value], slots2[k2.value := v2.value.value]);
        }
      }
    }
  }

  lemma {:induction false} WatchedKey(host: Host, names: set<string>, calls: bool, p: Property, env: Env, h1: Heap,
      h2: Heap, g1: Heap, g2: Heap)
    requires Watching(host, names, calls, env, h1, h2, g1, g2) && KeyFiltersAmong(p, names) && KeyEffectFree(p, calls)
    requires AllUnchanged(host, ToWatchKey(p), env, h1, h2) && KeyGuarded(host, p, env, h1.next, g1)
    ensures var k1 := EvalKey(host, p, env, g1);
            var k2 := EvalKey(host, p, env, g2);
            k1.Ok? == k2.Ok?
            && (k1.Ok? ==> k1.value == k2.value && Watching(host, names, calls, env, h1, h2, k1.heap, k2.heap))
    decreases p, 0
  {
    if p.Keyed? {
      WatchedSame(host, names, calls, p.keyExpr, env, h1, h2, g1, g2);
      var o1 := Eval(host, p.keyExpr, false, No, env, g1);
      var o2 := Eval(host, p.keyExpr, false, No, env, g2);
      if o1.Ok? {
        EvalGrows(host, names, calls, p.keyExpr, false, env, g1);
        EvalGrows(host, names, calls, p.keyExpr, false, env, g2);
        StillWatching(host, names, calls, env, h1, h2, g1, g2, o1.heap, o2.heap);
        CoercedAlike(host, Min(h1.next, h2.next), h1.next, h2.next, o1.value.value, o2.value.value, o1.heap, o2.heap);
      }
    }
  }

  /** From two closed heaps in which the watched nodes evaluate alike the whole does. */
  lemma WatchesDecide(host: Host, names: set<string>, calls: bool, e: Expr, env: Env, h1: Heap, h2: Heap)
    requires Suits(host, names, calls, h1, h2) && FiltersAmong(e, names) && EffectFree(e, calls)
    requires Guarded(host, e, env, h1.next, h1)
    requires Closed(h1) && Closed(h2) && EnvKnown(env, h1) && EnvKnown(env, h2)
    requires AllUnchanged(host, ToWatch(e), env, h1, h2)
    ensures Unchanged(host, e, env, h1, h2)
  {
    ClosedIsTidy(h1);
    ClosedIsTidy(h2);
    TidyTwins(Min(h1.next, h2.next), h1, h2);
    WatchedSame(host, names, calls, e, env, h1, h2, h1, h2);
  }

  /**
   * Main result: if every input of a compiled expression is unchanged between two heaps, so is the expression, as
   * long as whatever it coerces or hands to a filter that looks into it reaches only objects the run has made.
   */
  lemma InputsDecide(host: Host, names: set<string>, calls: bool, e: Expr, env: Env, h1: Heap, h2: Heap)
    requires Suits(host, names, calls, h1, h2) && FiltersAmong(e, names) && EffectFree(e, calls)
    requires Guarded(host, e, env, h1.next, h1)
    requires Closed(h1) && Closed(h2) && EnvKnown(env, h1) && EnvKnown(env, h2)
    requires Inputs(e).Some?
    requires forall w | w in Inputs(e).value ::
               SameOutcome(Min(h1.next, h2.next), h1.next, h2.next,
                           Recurse(host, w, false, No)(env, h1), Recurse(host, w, false, No)(env, h2))
    ensures SameOutcome(Min(h1.next, h2.next), h1.next, h2.next,
                        Compile(host, [e])(env, h1), Compile(host, [e])(env, h2))
  {
    forall w | w in ToWatch(e) ensures Unchanged(host, w, env, h1, h2) {
      RecurseCorrect(host, w, false, No, env, h1);
      RecurseCorrect(host, w, false, No, env, h2);
    }
    WatchesDecide(host, names, calls, e, env, h1, h2);
    CompileIsProgram(host, [e], env, h1);
    CompileIsProgram(host, [e], env, h2);
  }

  // ---- literals that the expression itself makes

  lemma {:induction false} ItemSlotsHold(vs: seq<Value>, k: string)
    requires k in ItemSlots(vs)
    ensures ItemSlots(vs)[k] in vs
    decreases |vs|
  {
    var n := |vs| - 1;
    if k != Decimal(n) { ItemSlotsHold(vs[..n], k); }
  }

  ghost predicate OnlyNewSlots(n: nat, h: Heap, slots: Slots) {
    exists r: iset<nat> :: NewOnly(r, n, h) && forall k | k in slots :: Inside(r, slots[k])
  }

  lemma LiteralIsNew(n: nat, h: Heap, slots: Slots)
    requires h.next >= n && OnlyNewSlots(n, h, slots)
    ensures OnlyNew(n, Alloc(h, slots).1, [Alloc(h, slots).0])
  {
    var r: iset<nat> :| NewOnly(r, n, h) && forall k | k in slots :: Inside(r, slots[k]);
    var (v, g) := Alloc(h, slots);
    var r' := r + iset{h.next};
    forall x | x in r' ensures x >= n && forall k | k in SlotsOf(g, x) :: Inside(r', SlotsOf(g, x)[k]) {
      if x != h.next { assert SlotsOf(g, x) == SlotsOf(h, x); }
    }
    assert NewOnly(r', n, g) && AllInside(r', [v]);
  }

  lemma ArrayIsNew(n: nat, h: Heap, vs: seq<Value>)
    requires h.next >= n && OnlyNew(n, h, vs)
    ensures OnlyNew(n, Alloc(h, ArraySlots(vs)).1, [Alloc(h, ArraySlots(vs)).0])
  {
    var r: iset<nat> :| NewOnly(r, n, h) && AllInside(r, vs);
    forall k | k in ArraySlots(vs) ensures Inside(r, ArraySlots(vs)[k]) {
      if k != "length" { ItemSlotsHold(vs, k); }
    }
    LiteralIsNew(n, h, ArraySlots(vs));
  }

  /**
   * An array literal of values that reach only new objects, primitives for one, may be handed to any filter and
   * coerced by any operator: `[a] | json` and `-[a]` are decided by a primitive `a`.
   */
  lemma ArrayLiteralIsGuarded(host: Host, names: set<string>, calls: bool, es: seq<Expr>, f: string, op: UnaryOp,
      env: Env, n: nat, g: Heap)
    requires TidyHost(host, names, calls) && AllFiltersAmong(es, names) && AllEffectFree(es, calls) && n <= g.next
    requires AllGuarded(host, es, env, n, g)
    requires var o := EvalAll(host, es, env, g); o.Ok? ==> OnlyNew(n, o.heap, o.value)
    ensures Guarded(host, Filter(f, [Array(es)]), env, n, g) && Guarded(host, Unary(op, Array(es)), env, n, g)
  {
    EvalAllGrows(host, names, calls, es, env, g);
    var o := EvalAll(host, es, env, g);
    if o.Ok? { ArrayIsNew(n, o.heap, o.value); }
    NewLiteralIsGuarded(host, Array(es), f, op, env, n, g);
  }

  /** The same for an object literal: `{x: a} | json`. */
  lemma ObjectLiteralIsGuarded(host: Host, names: set<string>, calls: bool, ps: seq<Property>, f: string, op: UnaryOp,
      env: Env, n: nat, g: Heap)
    requires TidyHost(host, names, calls) && PropertyFiltersAmong(ps, names) && PropertiesEffectFree(ps, calls)
    requires n <= g.next
    requires PropertiesGuarded(host, ps, env, n, g)
    requires var o := EvalProperties(host, ps, env, g, map[]); o.Ok? ==> OnlyNewSlots(n, o.heap, o.value)
    ensures Guarded(host, Filter(f, [ObjectLiteral(ps)]), env, n, g)
    ensures Guarded(host, Unary(op, ObjectLiteral(ps)), env, n, g)
  {
    EvalPropertiesGrows(host, names, calls, ps, env, g, map[]);
    var o := EvalProperties(host, ps, env, g, map[]);
    if o.Ok? { LiteralIsNew(n, o.heap, o.value); }
    NewLiteralIsGuarded(host, ObjectLiteral(ps), f, op, env, n, g);
  }

  lemma NewLiteralIsGuarded(host: Host, e: Expr, f: string, op: UnaryOp, env: Env, n: nat, g: Heap)
    requires Guarded(host, e, env, n, g)
    requires var o := Eval(host, e, false, No, env, g); o.Ok? ==> OnlyNew(n, o.heap, [o.value.value])
    ensures Guarded(host, Filter(f, [e]), env, n, g) && Guarded(host, Unary(op, e), env, n, g)
  {
    OneArgument(host, e, env, g);
    assert [e][1..] == [];
    var o := Eval(host, e, false, No, env, g);
    assert o.Ok? ==> AllGuarded(host, [e][1..], env, n, o.heap);
    assert AllGuarded(host, [e], env, n, g);
    assert ArgumentsGuarded(host, n, f, EvalAll(host, [e], env, g));
  }

  lemma OneArgument(host: Host, e: Expr, env: Env, h: Heap)
    ensures EvalAll(host, [e], env, h) ==
            (var (a, h1) :- Eval(host, e, false, No, env, h); Ok([a.value], h1))
  {
    var o := Eval(host, e, false, No, env, h);
    assert [e][1..] == [];
    if o.Ok? {
      assert EvalAll(host, [], env, o.heap) == Ok([], o.heap);
      assert [o.value.value] + [] == [o.value.value];
    }
  }
}
