/**
 * When looking at the inputs is enough. Watching compares the references of objects, so an operator that looks
 * into an object can change its mind although no input has changed (src/core/parse/interpreter.ts:2180-2226 names
 * the operators). The guard of WatchSoundness is exact for every operator that does.
 */
module WatchExactness {
  import opened Basics
  import opened JsValues
  import opened Expressions
  import opened Semantics
  import opened CompileCorrect
  import opened AssignRead
  import opened WatchAnalysis
  import opened Lockstep
  import opened WatchSoundness

  predicate Peek(key: string, v: Value, h: Heap) { v.Obj? && key in SlotsOf(h, v.ref) }

  /** Whose coercions, comparisons and filters ask one thing: has the object this slot? */
  function PeekingHost(key: string): Host {
    Host((v, h) => if Peek(key, v, h) then NonZero(1.0) else Zero(false),
         (v, h) => if Peek(key, v, h) then "1" else "",
         (_, x, y) => if x == NonZero(1.0) then x else y,
         (_, a, b, h) => Peek(key, a, h) || Peek(key, b, h),
         (a, b, h) => Peek(key, a, h) || Peek(key, b, h),
         (_, _) => Undefined,
         (f, context, args, h) => Ok(Undefined, h),
         (f, args, h) => Ok(Bool(|args| > 0 && Peek(key, args[0], h)), h))
  }

  lemma PeekSame(key: string, p: Pairing, v1: Value, v2: Value, h1: Heap, h2: Heap)
    requires Matching(p, h1, h2) && Paired(p, v1, v2)
    ensures Peek(key, v1, h1) == Peek(key, v2, h2)
  {
    if v1.Obj? { assert PairedSlots(p, SlotsOf(h1, v1.ref), SlotsOf(h2, v2.ref)); }
  }

  /** The hypotheses on hosts can be met, also by one whose filters and coercions look into objects. */
  lemma PeekingIsNatural(key: string, names: set<string>)
    ensures Natural(PeekingHost(key), names)
  {
    var host := PeekingHost(key);
    PeekingCoercions(key);
    forall f | f in names ensures NaturalFilter(host, f) && TidyFilter(host, f) { PeekingFilter(key, f); }
  }

  lemma PeekingCoercions(key: string)
    ensures NaturalCoercions(PeekingHost(key))
  {
    var host := PeekingHost(key);
    forall p, v1, v2, h1, h2 | Matching(p, h1, h2) && Paired(p, v1, v2)
      ensures host.number(v1, h1) == host.number(v2, h2) && host.text(v1, h1) == host.text(v2, h2)
    {
      PeekSame(key, p, v1, v2, h1, h2);
    }
    forall p, v1, v2, w1, w2, h1, h2 | Matching(p, h1, h2) && Paired(p, v1, v2) && Paired(p, w1, w2)
      ensures host.looselyEqual(v1, w1, h1) == host.looselyEqual(v2, w2, h2)
      ensures forall op :: host.relation(op, v1, w1, h1) == host.relation(op, v2, w2, h2)
    {
      PeekSame(key, p, v1, v2, h1, h2);
      PeekSame(key, p, w1, w2, h1, h2);
    }
  }

  lemma PeekingFilter(key: string, f: string)
    ensures NaturalFilter(PeekingHost(key), f) && TidyFilter(PeekingHost(key), f)
  {
    var host := PeekingHost(key);
    forall p, vs1, vs2, h1, h2 | Matching(p, h1, h2) && PairedAll(p, vs1, vs2)
      ensures SameMade(p, h1, h2, host.filter(f, vs1, h1), host.filter(f, vs2, h2))
    {
      if |vs1| > 0 { PeekSame(key, p, vs1[0], vs2[0], h1, h2); }
    }
  }

  /** Whose filters make a new array of their arguments. */
  function WrappingHost(): Host {
    SilentHost().(filter := (f: string, args: seq<Value>, h: Heap) =>
      Ok(Alloc(h, ArraySlots(args)).0, Alloc(h, ArraySlots(args)).1))
  }

  /** Nor do the hypotheses exclude filters that make objects. */
  lemma WrappingIsNatural(names: set<string>)
    ensures Natural(WrappingHost(), names)
  {
    var host := WrappingHost();
    forall f | f in names ensures NaturalFilter(host, f) && TidyFilter(host, f) {
      forall p, vs1, vs2, h1, h2 | Matching(p, h1, h2) && PairedAll(p, vs1, vs2)
        ensures SameMade(p, h1, h2, host.filter(f, vs1, h1), host.filter(f, vs2, h2))
      {
        WrappedSame(p, vs1, vs2, h1, h2);
      }
    }
  }

  lemma WrappedSame(p: Pairing, vs1: seq<Value>, vs2: seq<Value>, h1: Heap, h2: Heap)
    requires PairedAll(p, vs1, vs2)
    ensures SameMade(p, h1, h2, Ok(Alloc(h1, ArraySlots(vs1)).0, Alloc(h1, ArraySlots(vs1)).1),
                     Ok(Alloc(h2, ArraySlots(vs2)).0, Alloc(h2, ArraySlots(vs2)).1))
  {
    var q := WithNew(p, h1.next, h2.next);
    var g1, g2 := Alloc(h1, ArraySlots(vs1)).1, Alloc(h2, ArraySlots(vs2)).1;
    ItemSlotsPaired(q, vs1, vs2);
    forall k: nat | h1.next + k < g1.next ensures NewTwins(q, h1.next, h2.next, g1, g2, k) {
      assert k == 0;
    }
  }

  lemma {:induction false} ItemSlotsPaired(q: Pairing, vs1: seq<Value>, vs2: seq<Value>)
    requires PairedAll(q, vs1, vs2)
    ensures PairedSlots(q, ItemSlots(vs1), ItemSlots(vs2))
    decreases |vs1|
  {
    if |vs1| > 0 { ItemSlotsPaired(q, vs1[..|vs1| - 1], vs2[..|vs2| - 1]); }
  }

  /** Whose functions read the object 0, which they close over, and put what they find in a new array. */
  function ClosureHost(key: string): Host {
    WrappingHost().(call := (f: nat, context: Value, args: seq<Value>, h: Heap) =>
      Ok(Alloc(h, ArraySlots([Slot(h, 0, key)] + args)).0, Alloc(h, ArraySlots([Slot(h, 0, key)] + args)).1))
  }

  /** The hypothesis on functions that are called can be met by closures over the scope that make objects. */
  lemma ClosuresAreQuiet(key: string)
    ensures QuietCalls(ClosureHost(key), 1)
  {
    var host := ClosureHost(key);
    forall f: nat ensures NaturalCall(host, f, 1) && TidyCall(host, f) {
      forall p, c1, c2, vs1, vs2, h1, h2 |
        Matching(p, h1, h2) && SharedBelow(p, 1) && Paired(p, c1, c2) && PairedAll(p, vs1, vs2)
        ensures SameMade(p, h1, h2, host.call(f, c1, vs1, h1), host.call(f, c2, vs2, h2))
      {
        assert (0, 0) in p;
        assert PairedSlots(p, SlotsOf(h1, 0), SlotsOf(h2, 0));
        WrappedSame(p, [Slot(h1, 0, key)] + vs1, [Slot(h2, 0, key)] + vs2, h1, h2);
      }
    }
  }

  // ---- one operator on one path

  /** An operator or a filter applied to a dotted path, and possibly a literal. */
  predicate OfPath(e: Expr, w: Expr) {
    PathOf(w).Some? &&
    match e
    case Unary(_, operand) => operand == w
    case Binary(_, left, right) => left == w && right.Literal?
    case Filter(_, args) => args == [w]
    case _ => false
  }

  /** It looks into the path's value if that is an object. */
  predicate LooksInside(e: Expr) {
    match e
    case Unary(op, _) => !op.Not?
    case Binary(op, _, right) => right.Literal? && Coerces(op, Obj(0), right.literal)
    case Filter(_, _) => true
    case _ => false
  }

  /** Where a path leads through objects; the properties of anything else are no objects. */
  function Walk(v: Value, path: seq<string>, h: Heap): Value
    decreases |path|
  {
    if |path| == 0 then v else Walk(if v.Obj? then Slot(h, v.ref, path[0]) else Undefined, path[1..], h)
  }

  function Leads(w: Expr, env: Env, h: Heap): Value
    requires PathOf(w).Some?
  {
    Walk(Base(env, PathOf(w).value[0], h), PathOf(w).value, h)
  }

  lemma {:induction false} WalkIsFold(host: Host, v: Value, u: Value, path: seq<string>, h: Heap)
    requires PlainBoxes(host) && (v.Obj? || u.Obj? ==> u == v)
    ensures var r, t := FoldReads(host, v, path, h), Walk(u, path, h); r.Obj? || t.Obj? ==> t == r
    decreases |path|
  {
    if |path| > 0 {
      WalkIsFold(host, Read(host, v, path[0], h), if u.Obj? then Slot(h, u.ref, path[0]) else Undefined, path[1..], h);
    }
  }

  lemma PathEvaluates(host: Host, w: Expr, env: Env, h: Heap)
    requires PlainBoxes(host) && PathOf(w).Some?
    ensures var o := Eval(host, w, false, No, env, h);
            && o.Ok? && o.heap == h && !o.value.Reference?
            && (o.value.value.Obj? || Leads(w, env, h).Obj? ==> o.value.value == Leads(w, env, h))
  {
    var path := PathOf(w).value;
    EvalPath(host, w, env, h);
    WalkIsFold(host, Base(env, path[0], h), Base(env, path[0], h), path, h);
  }

  /** From any state with the same inputs the expression comes out the same, whatever the host. */
  ghost predicate Decided(e: Expr, w: Expr, env: Env, h1: Heap) {
    forall host: Host, names: set<string>, h2: Heap |
      && Natural(host, names) && FiltersAmong(e, names)
      && Closed(h2) && EnvKnown(env, h2) && Unchanged(host, w, env, h1, h2) ::
      Unchanged(host, e, env, h1, h2)
  }

  lemma PathIsGuarded(host: Host, e: Expr, w: Expr, env: Env, h: Heap)
    requires PlainBoxes(host) && OfPath(e, w) && !(LooksInside(e) && Leads(w, env, h).Obj?)
    ensures Guarded(host, e, env, h.next, h)
  {
    var o := Eval(host, w, false, No, env, h);
    PathEvaluates(host, w, env, h);
    assert w.Identifier? || w.Member?;
    assert Guarded(host, w, env, h.next, h);
    if !o.value.value.Obj? { NoObjectsAreNew(h.next, h, [o.value.value]); }
    match e
    case Unary(op, operand) => assert NumberGuarded(h.next, op, o);
    case Binary(op, left, right) =>
      assert Eval(host, right, false, No, env, h) == Ok(Plain(right.literal), h);
      assert Guarded(host, right, env, h.next, h);
      assert !Coerces(op, o.value.value, right.literal);
    case Filter(f, args) =>
      OneArgument(host, w, env, h);
      assert args[1..] == [];
      assert AllGuarded(host, args[1..], env, h.next, h);
      assert ArgumentsGuarded(host, h.next, f, EvalAll(host, args, env, h));
  }

  lemma PathIsWatched(e: Expr, w: Expr)
    requires OfPath(e, w)
    ensures ToWatch(e) == [w] && EffectFree(e, false)
  {
    OnlyPath(w);
    match e
    case Filter(_, args) => assert args[1..] == [] && ToWatchAll(args) == ToWatch(args[0]) + ToWatchAll(args[1..]);
    case Binary(_, left, right) => assert ToWatch(right) == [];
    case _ =>
  }

  lemma {:induction false} OnlyPath(w: Expr)
    requires PathOf(w).Some?
    ensures ToWatch(w) == [w] && EffectFree(w, false) && !IsConstant(w) && forall names :: FiltersAmong(w, names)
    decreases w
  {
    if w.Member? { OnlyPath(w.subject); }
  }

  lemma DecidedIf(e: Expr, w: Expr, env: Env, h1: Heap)
    requires OfPath(e, w) && Closed(h1) && EnvKnown(env, h1)
    requires !(LooksInside(e) && Leads(w, env, h1).Obj?)
    ensures Decided(e, w, env, h1)
  {
    forall host: Host, names: set<string>, h2: Heap |
      && Natural(host, names) && FiltersAmong(e, names)
      && Closed(h2) && EnvKnown(env, h2) && Unchanged(host, w, env, h1, h2)
      ensures Unchanged(host, e, env, h1, h2)
    {
      PathIsGuarded(host, e, w, env, h1);
      PathIsWatched(e, w);
      WatchesDecide(host, names, false, e, env, h1, h2);
    }
  }

  /** The same heap, but the object has the slot if it had not, and has not if it had. */
  function Toggled(h: Heap, r: nat, key: string): Heap {
    var slots := SlotsOf(h, r);
    Heap(h.next, h.objects[r := if key in slots then slots - {key} else slots[key := Null]])
  }

  /** A key that is longer than every name of the path. */
  function OtherKey(path: seq<string>): (key: string)
    ensures |key| > 0 && forall name | name in path :: |name| < |key|
    decreases |path|
  {
    if |path| == 0 then "0"
    else
      var key := OtherKey(path[1..]) + path[0];
      assert forall name | name in path :: name == path[0] || name in path[1..];
      key
  }

  lemma {:induction false} ToggledWalk(v: Value, path: seq<string>, h: Heap, r: nat, key: string)
    requires key !in path
    ensures Walk(v, path, Toggled(h, r, key)) == Walk(v, path, h)
    decreases |path|
  {
    if |path| > 0 {
      assert path[0] in path && (forall name | name in path[1..] :: name in path);
      ToggledWalk(if v.Obj? then Slot(h, v.ref, path[0]) else Undefined, path[1..], h, r, key);
    }
  }

  lemma {:induction false} WalkStaysKnown(v: Value, path: seq<string>, h: Heap)
    requires Closed(h) && (v.Obj? ==> v.ref < h.next)
    ensures Walk(v, path, h).Obj? ==> Walk(v, path, h).ref < h.next
    decreases |path|
  {
    if |path| > 0 { WalkStaysKnown(if v.Obj? then Slot(h, v.ref, path[0]) else Undefined, path[1..], h); }
  }

  lemma ToggledKeepsPath(host: Host, w: Expr, env: Env, h: Heap)
    requires PlainBoxes(host) && PathOf(w).Some? && Closed(h) && EnvKnown(env, h) && Leads(w, env, h).Obj?
    ensures var h2 := Toggled(h, Leads(w, env, h).ref, OtherKey(PathOf(w).value));
            && Closed(h2) && EnvKnown(env, h2) && Leads(w, env, h2) == Leads(w, env, h)
            && Unchanged(host, w, env, h, h2)
  {
    var path, r := PathOf(w).value, Leads(w, env, h).ref;
    var key := OtherKey(path);
    var h2 := Toggled(h, r, key);
    assert path[0] in path && Base(env, path[0], h2) == Base(env, path[0], h);
    WalkStaysKnown(Base(env, path[0], h), path, h);
    ToggledWalk(Base(env, path[0], h), path, h, r, key);
    ClosedIsTidy(h);
    ClosedIsTidy(h2);
    TidyTwins(h.next, h, h2);
    PathEvaluates(host, w, env, h);
    PathEvaluates(host, w, env, h2);
  }

  /** What the peeking host makes of the expression tells whether the object has the slot. */
  lemma PeekShows(key: string, e: Expr, w: Expr, env: Env, h: Heap)
    requires OfPath(e, w) && LooksInside(e) && Leads(w, env, h).Obj?
    ensures var o := Eval(PeekingHost(key), e, false, No, env, h);
            var peek := Peek(key, Leads(w, env, h), h);
            && o.Ok? && !o.value.Reference?
            && o.value.value == Shown(e, peek)
  {
    var host, v := PeekingHost(key), Leads(w, env, h);
    PathEvaluates(host, w, env, h);
    assert Eval(host, w, false, No, env, h) == Ok(Plain(v), h);
    match e
    case Filter(_, args) =>
      OneArgument(host, w, env, h);
    case Binary(op, _, right) =>
      assert Eval(host, right, false, No, env, h) == Ok(Plain(right.literal), h);
    case _ =>
  }

  function Shown(e: Expr, peek: bool): Value {
    match e
    case Unary(op, _) =>
      if op.Minus? then Num(Negate(if peek then NonZero(1.0) else Zero(false)))
      else Num(if peek then NonZero(1.0) else Zero(false))
    case Binary(Arith(_), _, _) => Num(if peek then NonZero(1.0) else Zero(false))
    case Binary(NotLoose, _, _) => Bool(!peek)
    case _ => Bool(peek)
  }

  /** Two heaps that differ in one slot of the object look alike to the path, and not to the expression. */
  lemma Escapes(e: Expr, w: Expr, env: Env, h: Heap, host: Host, h2: Heap)
    requires OfPath(e, w) && LooksInside(e) && Closed(h) && EnvKnown(env, h) && Leads(w, env, h).Obj?
    requires host == PeekingHost(OtherKey(PathOf(w).value))
    requires h2 == Toggled(h, Leads(w, env, h).ref, OtherKey(PathOf(w).value))
    ensures Closed(h2) && EnvKnown(env, h2) && Unchanged(host, w, env, h, h2)
    ensures !Unchanged(host, e, env, h, h2)
  {
    var key, v := OtherKey(PathOf(w).value), Leads(w, env, h);
    ToggledKeepsPath(host, w, env, h);
    PeekShows(key, e, w, env, h);
    PeekShows(key, e, w, env, h2);
    assert Peek(key, v, h) != Peek(key, v, h2);
    ShownTells(e);
  }

  lemma ShownTells(e: Expr)
    requires LooksInside(e)
    ensures Shown(e, true) != Shown(e, false) && !Shown(e, true).Obj? && !Shown(e, false).Obj?
  {
  }

  /** Main result: for one operator on one path the inputs decide exactly when it does not look into an object. */
  lemma DecidedExactly(e: Expr, w: Expr, env: Env, h: Heap)
    requires OfPath(e, w) && Closed(h) && EnvKnown(env, h)
    ensures Decided(e, w, env, h) <==> !(LooksInside(e) && Leads(w, env, h).Obj?)
  {
    if LooksInside(e) && Leads(w, env, h).Obj? {
      var key := OtherKey(PathOf(w).value);
      var host, h2 := PeekingHost(key), Toggled(h, Leads(w, env, h).ref, key);
      var names := if e.Filter? then {e.filter} else {};
      PeekingIsNatural(key, names);
      Escapes(e, w, env, h, host, h2);
      OnlyFilter(e, w);
    } else {
      DecidedIf(e, w, env, h);
    }
  }

  lemma OnlyFilter(e: Expr, w: Expr)
    requires OfPath(e, w)
    ensures FiltersAmong(e, if e.Filter? then {e.filter} else {})
  {
    OnlyPath(w);
    if e.Filter? {
      assert e.args[1..] == [];
      assert AllFiltersAmong(e.args[1..], {e.filter});
    }
  }

  /** A coercion or a filter of an array literal that holds the path's value. */
  predicate OfWrapped(e: Expr, w: Expr) {
    PathOf(w).Some? &&
    match e
    case Unary(_, operand) => operand == Array([w])
    case Filter(_, args) => args == [Array([w])]
    case _ => false
  }

  /** A path that leads to no object may be wrapped in an array literal and coerced or handed to any filter. */
  lemma WrappedIsDecided(e: Expr, w: Expr, env: Env, h1: Heap)
    requires OfWrapped(e, w) && Closed(h1) && EnvKnown(env, h1) && !Leads(w, env, h1).Obj?
    ensures Decided(e, w, env, h1)
  {
    forall host: Host, names: set<string>, h2: Heap |
      && Natural(host, names) && FiltersAmong(e, names)
      && Closed(h2) && EnvKnown(env, h2) && Unchanged(host, w, env, h1, h2)
      ensures Unchanged(host, e, env, h1, h2)
    {
      WrappedIsWatched(e, w, names);
      WrappedIsGuarded(host, names, e, w, env, h1);
      WatchesDecide(host, names, false, e, env, h1, h2);
    }
  }

  lemma WrappedIsWatched(e: Expr, w: Expr, names: set<string>)
    requires OfWrapped(e, w)
    ensures ToWatch(e) == [w] && EffectFree(e, false) && AllEffectFree([w], false) && AllFiltersAmong([w], names)
  {
    OnlyPath(w);
    assert [w][1..] == [] && [Array([w])][1..] == [];
    assert ToWatchAll([w]) == ToWatch(w) + ToWatchAll([w][1..]) == [w];
    assert ToWatchAll([Array([w])]) == ToWatch(Array([w])) + ToWatchAll([Array([w])][1..]) == [w];
    assert [w][0] == w && AllEffectFree([w][1..], false) && AllFiltersAmong([w][1..], names);
    assert AllEffectFree([w], false) && FiltersAmong(w, names);
    assert [Array([w])][0] == Array([w]) && AllEffectFree([Array([w])][1..], false);
    assert AllEffectFree([Array([w])], false);
  }

  lemma WrappedIsGuarded(host: Host, names: set<string>, e: Expr, w: Expr, env: Env, h: Heap)
    requires Natural(host, names) && OfWrapped(e, w) && !Leads(w, env, h).Obj?
    ensures Guarded(host, e, env, h.next, h)
  {
    WrappedIsWatched(e, w, names);
    PathEvaluates(host, w, env, h);
    OneArgument(host, w, env, h);
    assert w.Identifier? || w.Member?;
    assert AllGuarded(host, [w], env, h.next, h) by {
      assert [w][1..] == [] && AllGuarded(host, [w][1..], env, h.next, h);
    }
    var o := EvalAll(host, [w], env, h);
    NoObjectsAreNew(h.next, o.heap, o.value);
    ArrayLiteralIsGuarded(host, names, false, [w], if e.Filter? then e.filter else "",
                          if e.Unary? then e.uop else Not, env, h.next, h);
  }

  // ---- the smallest failure

  /** Coercion as the language does it for an array of one number. */
  function ArrayHost(): Host {
    SilentHost().(number := (v: Value, h: Heap) =>
      if v.Num? then v.n
      else if v.Obj? && Slot(h, v.ref, "0").Num? then Slot(h, v.ref, "0").n
      else NaN)
  }

  /** `-a` with a scope whose a is an array that holds one number. */
  function ArrayScope(n: real): Heap {
    Heap(2, map[0 := map["a" := Obj(1)], 1 := map["0" := Num(NonZero(n)), "length" := Num(NonZero(1.0))]])
  }

  /** The array is changed in place: the only input, `a`, is the same reference, and `-a` goes from -3 to -4. */
  lemma NegatedArrayEscapes()
    ensures var e, env := Unary(Minus, Identifier("a")), Env(Obj(0), None, Undefined);
            && Inputs(e) == Some([Identifier("a")])
            && Unchanged(ArrayHost(), Identifier("a"), env, ArrayScope(3.0), ArrayScope(4.0))
            && Eval(ArrayHost(), e, false, No, env, ArrayScope(3.0)).value == Plain(Num(NonZero(-3.0)))
            && Eval(ArrayHost(), e, false, No, env, ArrayScope(4.0)).value == Plain(Num(NonZero(-4.0)))
  {
    NegatedArray(3.0);
    NegatedArray(4.0);
    SameArray();
  }

  lemma NegatedArray(n: real)
    requires n != 0.0
    ensures Eval(ArrayHost(), Unary(Minus, Identifier("a")), false, No, Env(Obj(0), None, Undefined),
            ArrayScope(n)).value
            == Plain(Num(NonZero(-n)))
  {
    var env, h := Env(Obj(0), None, Undefined), ArrayScope(n);
    assert Eval(ArrayHost(), Identifier("a"), false, No, env, h) == Ok(Plain(Obj(1)), h);
    assert Slot(h, 1, "0") == Num(NonZero(n));
    assert ArrayHost().number(Obj(1), h) == NonZero(n);
  }

  lemma SameArray()
    ensures Unchanged(ArrayHost(), Identifier("a"), Env(Obj(0), None, Undefined), ArrayScope(3.0), ArrayScope(4.0))
  {
    var env, h1, h2 := Env(Obj(0), None, Undefined), ArrayScope(3.0), ArrayScope(4.0);
    assert Eval(ArrayHost(), Identifier("a"), false, No, env, h1) == Ok(Plain(Obj(1)), h1);
    assert Eval(ArrayHost(), Identifier("a"), false, No, env, h2) == Ok(Plain(Obj(1)), h2);
    assert Tidy(h1) && Tidy(h2);
    TidyTwins(2, h1, h2);
  }
}
