/** `fn._assign` followed by `fn`: what an assignment to a dotted path does to the heap, and when it reads back. */
module AssignRead {
  import opened Basics
  import opened JsValues
  import opened Expressions
  import opened Semantics
  import opened Interpreter
  import opened CompileCorrect

  /** No object mentions a reference that has not been handed out. */
  ghost predicate Closed(h: Heap) {
    forall r | r in h.objects ::
      r < h.next && forall k | k in h.objects[r] :: h.objects[r][k].Obj? ==> h.objects[r][k].ref < h.next
  }

  ghost predicate Known(v: Value, h: Heap) { v.Obj? ==> v.ref < h.next }

  ghost predicate EnvKnown(env: Env, h: Heap) {
    Known(env.scope, h) && (env.locals.Some? ==> env.locals.value < h.next)
  }

  /** Every step but the last meets an object, or a null or undefined slot to create one in. */
  ghost predicate Walkable(h: Heap, r: nat, p: seq<string>)
    requires |p| >= 1
    decreases |p|
  {
    |p| == 1 ||
    var v := Slot(h, r, p[0]);
    Nullish(v) || (v.Obj? && Walkable(h, v.ref, p[1..]))
  }

  /** The one slot of an existing object that the assignment writes. */
  ghost function Written(h: Heap, r: nat, p: seq<string>): (nat, string)
    requires |p| >= 1 && Walkable(h, r, p)
    decreases |p|
  {
    if |p| == 1 || Nullish(Slot(h, r, p[0])) then (r, p[0]) else Written(h, Slot(h, r, p[0]).ref, p[1..])
  }

  /** The slots the path goes through before it gets there. */
  ghost function Crossed(h: Heap, r: nat, p: seq<string>): set<(nat, string)>
    requires |p| >= 1 && Walkable(h, r, p)
    decreases |p|
  {
    if |p| == 1 || Nullish(Slot(h, r, p[0])) then {} else {(r, p[0])} + Crossed(h, Slot(h, r, p[0]).ref, p[1..])
  }

  /** What is left of the path after the written slot: one fresh object for each name. */
  ghost function Missing(h: Heap, r: nat, p: seq<string>): seq<string>
    requires |p| >= 1 && Walkable(h, r, p)
    decreases |p|
  {
    if |p| == 1 || Nullish(Slot(h, r, p[0])) then p[1..] else Missing(h, Slot(h, r, p[0]).ref, p[1..])
  }

  /** Fresh objects r, r + 1, ... with exactly one slot each, the last of them holding v. */
  ghost predicate IsChain(h: Heap, r: nat, p: seq<string>, v: Value)
    decreases |p|
  {
    |p| > 0 ==>
      SlotsOf(h, r) == map[p[0] := if |p| == 1 then v else Obj(r + 1)] && IsChain(h, r + 1, p[1..], v)
  }

  /** h' is h with the written slot filled, a chain of fresh objects behind it, and nothing else touched. */
  ghost predicate AssignedAt(h: Heap, h': Heap, r: nat, p: seq<string>, v: Value)
    requires |p| >= 1 && Walkable(h, r, p)
  {
    var (q, key) := Written(h, r, p);
    var missing := Missing(h, r, p);
    && h'.next == h.next + |missing|
    && SlotsOf(h', q) == SlotsOf(h, q)[key := if |missing| == 0 then v else Obj(h.next)]
    && IsChain(h', h.next, missing, v)
    && (forall x: nat | x != q && !(h.next <= x < h.next + |missing|) :: SlotsOf(h', x) == SlotsOf(h, x))
  }

  // ---- the evaluator performs exactly that assignment

  function Step(h: Heap, u: Value, key: string): (Value, Heap) {
    if u.Obj? then
      var h1 := if Nullish(Slot(h, u.ref, key)) then CreateSlot(u, key, h) else h;
      (Slot(h1, u.ref, key), h1)
    else (Undefined, h)
  }

  /** The value met or made at the end of a run of names. */
  function Descend(h: Heap, v: Value, p: seq<string>): (Value, Heap)
    decreases |p|
  {
    if |p| == 0 then (v, h) else
    var (u, h1) := Step(h, v, p[0]);
    Descend(h1, u, p[1..])
  }

  lemma {:induction false} DescendSnoc(h: Heap, v: Value, p: seq<string>, key: string)
    ensures var (u, h1) := Descend(h, v, p); Descend(h, v, p + [key]) == Step(h1, u, key)
    decreases |p|
  {
    if |p| == 0 {
      assert p + [key] == [key];
      var (u, h1) := Step(h, v, key);
      assert Descend(h1, u, [key][1..]) == (u, h1);
    } else {
      var (u, h1) := Step(h, v, p[0]);
      assert (p + [key])[1..] == p[1..] + [key];
      DescendSnoc(h1, u, p[1..], key);
    }
  }

  lemma StepCreates(h: Heap, r: nat, key: string)
    requires r < h.next && Nullish(Slot(h, r, key))
    ensures var (u, h1) := Step(h, Obj(r), key);
            && u == Obj(h.next)
            && h1.next == h.next + 1
            && SlotsOf(h1, h.next) == map[]
            && SlotsOf(h1, r) == SlotsOf(h, r)[key := Obj(h.next)]
            && (forall x: nat | x != r && x != h.next :: SlotsOf(h1, x) == SlotsOf(h, x))
  {
  }

  /** From a fresh empty object everything below is fresh too. */
  lemma {:induction false} DescendFresh(h: Heap, r: nat, p: seq<string>, v: Value)
    requires |p| >= 1 && h.next == r + 1 && SlotsOf(h, r) == map[]
    requires forall x: nat | x > r :: SlotsOf(h, x) == map[]
    ensures var (u, h1) := Descend(h, Obj(r), p[..|p| - 1]);
            var h' := Write(u, p[|p| - 1], v, h1);
            && u.Obj?
            && h'.next == r + |p|
            && IsChain(h', r, p, v)
            && (forall x: nat | x < r || x >= r + |p| :: SlotsOf(h', x) == SlotsOf(h, x))
    decreases |p|
  {
    if |p| == 1 {
      assert p[..0] == [];
    } else {
      var (u, h1) := Step(h, Obj(r), p[0]);
      assert p[..|p| - 1][1..] == p[1..][..|p[1..]| - 1];
      StepCreates(h, r, p[0]);
      DescendFresh(h1, r + 1, p[1..], v);
    }
  }

  lemma {:induction false} DescendAssigns(h: Heap, r: nat, p: seq<string>, v: Value)
    requires |p| >= 1 && Closed(h) && r < h.next && Walkable(h, r, p)
    ensures var (u, h1) := Descend(h, Obj(r), p[..|p| - 1]);
            u.Obj? && AssignedAt(h, Write(u, p[|p| - 1], v, h1), r, p, v)
    decreases |p|
  {
    if |p| == 1 {
      assert p[..0] == [] && p[1..] == [];
    } else {
      var (u, h1) := Step(h, Obj(r), p[0]);
      assert p[..|p| - 1][1..] == p[1..][..|p[1..]| - 1];
      if Nullish(Slot(h, r, p[0])) {
        DescendCreates(h, r, p, v);
      } else {
        DescendAssigns(h, u.ref, p[1..], v);
      }
    }
  }

  /** The first missing prefix and everything below it. */
  lemma DescendCreates(h: Heap, r: nat, p: seq<string>, v: Value)
    requires |p| > 1 && Closed(h) && r < h.next && Walkable(h, r, p) && Nullish(Slot(h, r, p[0]))
    ensures var (u, h1) := Descend(h, Obj(r), p[..|p| - 1]);
            u.Obj? && AssignedAt(h, Write(u, p[|p| - 1], v, h1), r, p, v)
  {
    var (u, h1) := Step(h, Obj(r), p[0]);
    assert p[..|p| - 1][1..] == p[1..][..|p[1..]| - 1];
    StepCreates(h, r, p[0]);
    DescendFresh(h1, h.next, p[1..], v);
  }

  /** Below an assignment target the evaluator goes down the path creating what is missing. */
  lemma {:induction false} EvalCreates(host: Host, e: Expr, env: Env, h: Heap, r: nat, rest: seq<string>)
    requires PathOf(e).Some? && Closed(h) && r < h.next
    requires |rest| >= 1 && Walkable(h, r, PathOf(e).value + rest)
    requires Base(env, PathOf(e).value[0], h) == Obj(r)
    ensures var (u, h1) := Descend(h, Obj(r), PathOf(e).value);
            u.Obj? && Eval(host, e, false, Yes, env, h) == Ok(Plain(u), h1)
    decreases e
  {
    var p := PathOf(e).value;
    PrefixObject(h, r, p, rest);
    match e
    case Identifier(name) =>
      assert Descend(h, Obj(r), p) == Step(h, Obj(r), name) by { DescendSnoc(h, Obj(r), [], name); }
    case Member(subject, property) =>
      var q := PathOf(subject).value;
      assert p + rest == q + ([property] + rest);
      EvalCreates(host, subject, env, h, r, [property] + rest);
      DescendSnoc(h, Obj(r), q, property);
  }

  lemma {:induction false} PrefixObject(h: Heap, r: nat, p: seq<string>, rest: seq<string>)
    requires |p| >= 1 && |rest| >= 1 && Closed(h) && r < h.next && Walkable(h, r, p + rest)
    ensures Descend(h, Obj(r), p).0.Obj?
    decreases |p|
  {
    var whole := p + rest;
    var (u, h1) := Step(h, Obj(r), p[0]);
    assert whole[0] == p[0] && whole[1..] == p[1..] + rest;
    if |p| > 1 {
      if Nullish(Slot(h, r, p[0])) {
        StepCreates(h, r, p[0]);
        DescendFresh(h1, h.next, p[1..] + [""], Null);
        assert (p[1..] + [""])[..|p[1..]|] == p[1..];
      } else {
        PrefixObject(h, u.ref, p[1..], rest);
      }
    }
  }

  /** `_assign(scope, v, locals)` on the path expression e. */
  function AssignPath(host: Host, e: Expr, env: Env, v: Value, h: Heap): Outcome {
    Recurse(host, Assignment(e, AssignedValue), false, No)(env.(input := v), h)
  }

  /** Main result: the assignment succeeds, makes one fresh object per missing name, and touches one old slot. */
  lemma AssignEffect(host: Host, e: Expr, env: Env, v: Value, h: Heap, r: nat)
    requires PathOf(e).Some? && Closed(h) && EnvKnown(env, h)
    requires Base(env, PathOf(e).value[0], h) == Obj(r) && Walkable(h, r, PathOf(e).value)
    ensures var o := AssignPath(host, e, env, v, h);
            o.Ok? && o.value == Plain(v) && AssignedAt(h, o.heap, r, PathOf(e).value, v)
  {
    var p := PathOf(e).value;
    AssignIsStore(host, e, env, v, h);
    DescendAssigns(h, r, p, v);
    TargetReference(host, e, env.(input := v), h, r);
  }

  lemma AssignIsStore(host: Host, e: Expr, env: Env, v: Value, h: Heap)
    ensures AssignPath(host, e, env, v, h) ==
            (var (t, h1) :- Eval(host, e, true, Leaf, env.(input := v), h);
             Store(false, t.context, t.name, v, h1))
  {
    RecurseCorrect(host, Assignment(e, AssignedValue), false, No, env.(input := v), h);
  }

  /** The reference an assignment target evaluates to. */
  lemma TargetReference(host: Host, e: Expr, env: Env, h: Heap, r: nat)
    requires PathOf(e).Some? && Closed(h) && r < h.next
    requires Base(env, PathOf(e).value[0], h) == Obj(r) && Walkable(h, r, PathOf(e).value)
    ensures var p := PathOf(e).value;
            var (u, h1) := Descend(h, Obj(r), p[..|p| - 1]);
            var o := Eval(host, e, true, Leaf, env, h);
            o.Ok? && o.heap == h1 && o.value.Reference? && o.value.context == u && o.value.name == Some(p[|p| - 1])
  {
    var p := PathOf(e).value;
    match e
    case Identifier(name) => assert p[..|p| - 1] == [];
    case Member(subject, property) =>
      var q := PathOf(subject).value;
      assert p == q + [property] && p[..|p| - 1] == q;
      EvalCreates(host, subject, env, h, r, [property]);
  }

  // ---- reading back

  /** The written slot is neither crossed on the way nor the one that decides where the path starts. */
  ghost predicate ReadsBack(env: Env, h: Heap, r: nat, p: seq<string>)
    requires |p| >= 1 && Walkable(h, r, p)
  {
    Written(h, r, p) !in Crossed(h, r, p)
    && (env.locals.Some? && env.locals.value != r ==> Written(h, r, p) != (env.locals.value, p[0]))
  }

  lemma {:induction false} ReadChain(host: Host, h: Heap, r: nat, p: seq<string>, v: Value)
    requires |p| >= 1 && IsChain(h, r, p, v)
    ensures FoldReads(host, Obj(r), p, h) == v
    decreases |p|
  {
    if |p| == 1 {
      assert FoldReads(host, v, p[1..], h) == v;
    } else {
      ReadChain(host, h, r + 1, p[1..], v);
    }
  }

  lemma {:induction false} ReadAssigned(host: Host, h: Heap, h': Heap, r: nat, p: seq<string>, v: Value)
    requires |p| >= 1 && Closed(h) && r < h.next && Walkable(h, r, p) && AssignedAt(h, h', r, p, v)
    requires Written(h, r, p) !in Crossed(h, r, p)
    ensures FoldReads(host, Obj(r), p, h') == v
    decreases |p|
  {
    if |p| == 1 {
      assert FoldReads(host, v, p[1..], h') == v;
    } else if Nullish(Slot(h, r, p[0])) {
      ReadChain(host, h', h.next, p[1..], v);
    } else {
      assert (r, p[0]) in Crossed(h, r, p);
      assert Written(h, r, p) != (r, p[0]);
      assert Written(h, r, p).0 != r ==> SlotsOf(h', r) == SlotsOf(h, r);
      ReadAssigned(host, h, h', Slot(h, r, p[0]).ref, p[1..], v);
    }
  }

  lemma MissingReads(host: Host, v: Value, p: seq<string>, h: Heap)
    requires Nullish(v) && |p| >= 1
    ensures FoldReads(host, v, p, h) == Undefined
  {
    MissingStaysMissing(host, p[1..], h);
  }

  /** A null written into a crossed slot cuts the path short. */
  lemma {:induction false} ReadCrossed(host: Host, h: Heap, h': Heap, r: nat, p: seq<string>)
    requires |p| >= 1 && Closed(h) && r < h.next && Walkable(h, r, p) && AssignedAt(h, h', r, p, Null)
    requires Written(h, r, p) in Crossed(h, r, p)
    ensures FoldReads(host, Obj(r), p, h') == Undefined
    decreases |p|
  {
    CrossedOld(h, r, p);
    if Written(h, r, p) == (r, p[0]) {
      MissingReads(host, Null, p[1..], h');
    } else {
      ReadCrossed(host, h, h', Slot(h, r, p[0]).ref, p[1..]);
    }
  }

  /** Only a target that already exists can have been crossed. */
  lemma {:induction false} CrossedOld(h: Heap, r: nat, p: seq<string>)
    requires |p| >= 1 && Walkable(h, r, p)
    ensures forall s | s in Crossed(h, r, p) :: Slot(h, s.0, s.1).Obj?
    ensures |Missing(h, r, p)| > 0 ==> Nullish(Slot(h, Written(h, r, p).0, Written(h, r, p).1))
    decreases |p|
  {
    if |p| > 1 && !Nullish(Slot(h, r, p[0])) { CrossedOld(h, Slot(h, r, p[0]).ref, p[1..]); }
  }

  /** A chain of nulls runs out before a longer path does. */
  lemma {:induction false} ReadPastChain(host: Host, h: Heap, r: nat, chain: seq<string>, p: seq<string>)
    requires 1 <= |chain| < |p| && IsChain(h, r, chain, Null)
    ensures FoldReads(host, Obj(r), p, h) == Undefined
    decreases |p|
  {
    if p[0] != chain[0] {
      MissingReads(host, Undefined, p[1..], h);
    } else if |chain| == 1 {
      MissingReads(host, Null, p[1..], h);
    } else {
      ReadPastChain(host, h, r + 1, chain[1..], p[1..]);
    }
  }

  lemma {:induction false} MissingShorter(h: Heap, r: nat, p: seq<string>)
    requires |p| >= 1 && Walkable(h, r, p)
    ensures |Missing(h, r, p)| < |p|
    ensures Written(h, r, p).0 != r ==> |Missing(h, r, p)| + 1 < |p|
    decreases |p|
  {
    if |p| > 1 && !Nullish(Slot(h, r, p[0])) { MissingShorter(h, Slot(h, r, p[0]).ref, p[1..]); }
  }

  function Reread(host: Host, e: Expr, env: Env, v: Value, h: Heap): Value {
    var assigned_ := AssignPath(host, e, env, v, h);
    var o := Recurse(host, e, false, No)(env, assigned_.heap);
    if o.Ok? then o.value.value else Undefined
  }

  lemma RereadIsFold(host: Host, e: Expr, env: Env, v: Value, h: Heap)
    requires PathOf(e).Some?
    ensures Reread(host, e, env, v, h) == PathValue(host, PathOf(e).value, env, AssignPath(host, e, env, v, h).heap)
  {
    GetterCorrect(host, e, env, AssignPath(host, e, env, v, h).heap);
  }

  /** Main result: every assigned value reads back exactly when the written slot is off the path. */
  lemma AssignThenRead(host: Host, e: Expr, env: Env, h: Heap, r: nat)
    requires PathOf(e).Some? && Closed(h) && EnvKnown(env, h)
    requires Base(env, PathOf(e).value[0], h) == Obj(r) && Walkable(h, r, PathOf(e).value)
    ensures (forall v :: Reread(host, e, env, v, h) == v) <==> ReadsBack(env, h, r, PathOf(e).value)
  {
    var p := PathOf(e).value;
    if ReadsBack(env, h, r, p) {
      forall v ensures Reread(host, e, env, v, h) == v {
        ReadBackHolds(host, e, env, v, h, r);
      }
    } else {
      ReadBackFails(host, e, env, h, r);
    }
  }

  lemma ReadBackHolds(host: Host, e: Expr, env: Env, v: Value, h: Heap, r: nat)
    requires PathOf(e).Some? && Closed(h) && EnvKnown(env, h)
    requires Base(env, PathOf(e).value[0], h) == Obj(r) && Walkable(h, r, PathOf(e).value)
    requires ReadsBack(env, h, r, PathOf(e).value)
    ensures Reread(host, e, env, v, h) == v
  {
    var p := PathOf(e).value;
    AssignEffect(host, e, env, v, h, r);
    RereadIsFold(host, e, env, v, h);
    ReadAssigned(host, h, AssignPath(host, e, env, v, h).heap, r, p, v);
  }

  lemma ReadBackFails(host: Host, e: Expr, env: Env, h: Heap, r: nat)
    requires PathOf(e).Some? && Closed(h) && EnvKnown(env, h)
    requires Base(env, PathOf(e).value[0], h) == Obj(r) && Walkable(h, r, PathOf(e).value)
    requires !ReadsBack(env, h, r, PathOf(e).value)
    ensures Reread(host, e, env, Null, h) != Null
  {
    var p := PathOf(e).value;
    AssignEffect(host, e, env, Null, h, r);
    RereadIsFold(host, e, env, Null, h);
    var h' := AssignPath(host, e, env, Null, h).heap;
    var w := Written(h, r, p);
    MissingShorter(h, r, p);
    if env.locals.Some? && env.locals.value != r && w == (env.locals.value, p[0]) {
      var missing := Missing(h, r, p);
      if |missing| == 0 {
        MissingReads(host, Null, p[1..], h');
      } else {
        ReadPastChain(host, h', h.next, missing, p[1..]);
      }
    } else {
      ReadCrossed(host, h, h', r, p);
    }
  }

  /** The law does fail: with `scope.a = scope`, `a.a = null` overwrites the slot that leads to it. */
  lemma CyclicScopeBreaksTheLaw(host: Host)
    ensures var h := Heap(1, map[0 := map["a" := Obj(0)]]);
            Reread(host, Member(Identifier("a"), "a"), Env(Obj(0), None, Undefined), Null, h) == Undefined
  {
    var h := Heap(1, map[0 := map["a" := Obj(0)]]);
    var e := Member(Identifier("a"), "a");
    var env := Env(Obj(0), None, Undefined);
    var p := ["a", "a"];
    assert PathOf(Identifier("a")) == Some(["a"]) && ["a"] + ["a"] == p;
    assert PathOf(e) == Some(p);
    assert p[1..] == ["a"];
    assert Walkable(h, 0, p);
    assert Written(h, 0, p) == (0, "a") && (0, "a") in Crossed(h, 0, p);
    AssignEffect(host, e, env, Null, h, 0);
    RereadIsFold(host, e, env, Null, h);
    ReadCrossed(host, h, AssignPath(host, e, env, Null, h).heap, 0, p);
  }
}
