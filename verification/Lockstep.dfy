/**
 * Two evaluations in step: the same expression from two heaps, equal up to the identity of the
 * objects each run creates. `b` bounds the references both runs share; the objects created since
 * `n1` and `n2` correspond by position.
 */
module Lockstep {
  import opened JsValues
  import opened Expressions
  import opened Semantics
  import opened WatchAnalysis

  ghost predicate SameValue(b: nat, n1: nat, n2: nat, v1: Value, v2: Value) {
    if v1.Obj? && v2.Obj? then
      (v1.ref == v2.ref && v1.ref < b) || (v1.ref >= n1 && v2.ref >= n2 && v1.ref - n1 == v2.ref - n2)
    else v1 == v2
  }

  ghost predicate SameSlots(b: nat, n1: nat, n2: nat, s1: Slots, s2: Slots) {
    s1.Keys == s2.Keys && forall k | k in s1 :: SameValue(b, n1, n2, s1[k], s2[k])
  }

  ghost predicate SameValues(b: nat, n1: nat, n2: nat, vs1: seq<Value>, vs2: seq<Value>) {
    |vs1| == |vs2| && forall i | 0 <= i < |vs1| :: SameValue(b, n1, n2, vs1[i], vs2[i])
  }

  /** The k-th objects created by the two runs. */
  ghost predicate Twins(b: nat, n1: nat, n2: nat, h1: Heap, h2: Heap, k: nat) {
    SameSlots(b, n1, n2, SlotsOf(h1, n1 + k), SlotsOf(h2, n2 + k))
  }

  ghost predicate SameFresh(b: nat, n1: nat, n2: nat, h1: Heap, h2: Heap) {
    && b <= n1 <= h1.next && b <= n2 <= h2.next && h1.next - n1 == h2.next - n2
    && (forall k: nat :: Twins(b, n1, n2, h1, h2, k))
  }

  ghost predicate SameAnswer(b: nat, n1: nat, n2: nat, a1: Answer, a2: Answer) {
    && SameValue(b, n1, n2, a1.value, a2.value)
    && a1.Reference? == a2.Reference?
    && (a1.Reference? ==> a1.name == a2.name && SameValue(b, n1, n2, a1.context, a2.context))
  }

  ghost predicate SameOutcome(b: nat, n1: nat, n2: nat, o1: Outcome, o2: Outcome) {
    o1.Ok? == o2.Ok?
    && (o1.Ok? ==> SameAnswer(b, n1, n2, o1.value, o2.value) && SameFresh(b, n1, n2, o1.heap, o2.heap))
  }

  ghost predicate SameResult(b: nat, n1: nat, n2: nat, o1: Result<Value>, o2: Result<Value>) {
    o1.Ok? == o2.Ok?
    && (o1.Ok? ==> SameValue(b, n1, n2, o1.value, o2.value) && SameFresh(b, n1, n2, o1.heap, o2.heap))
  }

  /** Objects below n hold in h' what they held in h. */
  ghost predicate Kept(n: nat, h: Heap, h': Heap) {
    forall r: nat | r < n :: SlotsOf(h', r) == SlotsOf(h, r)
  }

  /** Nothing is stored under a reference that has not been handed out. */
  ghost predicate Tidy(h: Heap) {
    forall r: nat | r >= h.next :: SlotsOf(h, r) == map[]
  }

  /** The shared part: equal in both heaps and closed. */
  ghost predicate Shared(b: nat, h1: Heap, h2: Heap) {
    forall r: nat | r < b ::
      SlotsOf(h1, r) == SlotsOf(h2, r)
      && forall k | k in SlotsOf(h1, r) :: SlotsOf(h1, r)[k].Obj? ==> SlotsOf(h1, r)[k].ref < b
  }

  ghost predicate EnvBelow(env: Env, b: nat) {
    (env.scope.Obj? ==> env.scope.ref < b) && (env.locals.Some? ==> env.locals.value < b)
  }

  /** Corresponding heaps: the shared objects hold the same, and so do those made since. */
  ghost predicate Alike(b: nat, n1: nat, n2: nat, h1: Heap, h2: Heap) {
    Shared(b, h1, h2) && SameFresh(b, n1, n2, h1, h2)
  }

  // ---- what is asked of hosts: coercions and filters see their arguments and what these reach, and nothing else

  /** A correspondence between objects of two heaps. */
  type Pairing = iset<(nat, nat)>

  ghost predicate OneToOne(p: Pairing) {
    forall x, y | x in p && y in p :: x.0 == y.0 <==> x.1 == y.1
  }

  ghost predicate Paired(p: Pairing, v1: Value, v2: Value) {
    if v1.Obj? && v2.Obj? then (v1.ref, v2.ref) in p else v1 == v2
  }

  ghost predicate PairedAll(p: Pairing, vs1: seq<Value>, vs2: seq<Value>) {
    |vs1| == |vs2| && forall i | 0 <= i < |vs1| :: Paired(p, vs1[i], vs2[i])
  }

  ghost predicate PairedSlots(p: Pairing, s1: Slots, s2: Slots) {
    s1.Keys == s2.Keys && forall k | k in s1 :: Paired(p, s1[k], s2[k])
  }

  /** Corresponding objects hold corresponding values. */
  ghost predicate Matching(p: Pairing, h1: Heap, h2: Heap) {
    OneToOne(p) && forall x | x in p :: PairedSlots(p, SlotsOf(h1, x.0), SlotsOf(h2, x.1))
  }

  /** The k-th objects made in the two heaps correspond too. */
  ghost function WithNew(p: Pairing, n1: nat, n2: nat): Pairing {
    iset x: (nat, nat) | x in p || (x.0 >= n1 && x.1 >= n2 && x.0 - n1 == x.1 - n2)
  }

  ghost predicate NewTwins(p: Pairing, n1: nat, n2: nat, g1: Heap, g2: Heap, k: nat) {
    PairedSlots(p, SlotsOf(g1, n1 + k), SlotsOf(g2, n2 + k))
  }

  /** Both fail, or both return corresponding values and have made corresponding objects. */
  ghost predicate SameMade(p: Pairing, h1: Heap, h2: Heap, o1: Result<Value>, o2: Result<Value>) {
    && o1.Ok? == o2.Ok?
    && (o1.Ok? ==>
        && o1.heap.next - h1.next == o2.heap.next - h2.next
        && Paired(WithNew(p, h1.next, h2.next), o1.value, o2.value)
        && forall k: nat | h1.next + k < o1.heap.next ::
             NewTwins(WithNew(p, h1.next, h2.next), h1.next, h2.next, o1.heap, o2.heap, k))
  }

  /** A filter may look at its arguments and at all they reach, and make objects of its own. */
  ghost predicate NaturalFilter(host: Host, f: string) {
    forall p, vs1, vs2, h1, h2 | Matching(p, h1, h2) && PairedAll(p, vs1, vs2) ::
      SameMade(p, h1, h2, host.filter(f, vs1, h1), host.filter(f, vs2, h2))
  }

  /** Nothing is stored under a reference that has not been handed out, unless it was there. */
  ghost predicate NoStrays(h: Heap, h': Heap) {
    forall r: nat | r >= h'.next :: SlotsOf(h', r) == SlotsOf(h, r)
  }

  /** No existing object changes, and no stray slot is left. */
  ghost predicate OnlyAdds(h: Heap, h': Heap) { h.next <= h'.next && Kept(h.next, h, h') && NoStrays(h, h') }

  ghost predicate TidyFilter(host: Host, f: string) { forall vs, h :: OnlyAdds(h, host.filter(f, vs, h).heap) }

  /** Both runs know these objects. */
  ghost predicate SharedBelow(p: Pairing, b: nat) { forall r: nat | r < b :: (r, r) in p }

  /** A function may look at its context and arguments too, and at the objects below `b`, which it may close over. */
  ghost predicate NaturalCall(host: Host, f: nat, b: nat) {
    forall p, c1, c2, vs1, vs2, h1, h2 |
      Matching(p, h1, h2) && SharedBelow(p, b) && Paired(p, c1, c2) && PairedAll(p, vs1, vs2) ::
      SameMade(p, h1, h2, host.call(f, c1, vs1, h1), host.call(f, c2, vs2, h2))
  }

  ghost predicate TidyCall(host: Host, f: nat) { forall c, vs, h :: OnlyAdds(h, host.call(f, c, vs, h).heap) }

  /** Functions leave what is there as it is and look at nothing else. */
  ghost predicate QuietCalls(host: Host, b: nat) {
    forall f: nat :: NaturalCall(host, f, b) && TidyCall(host, f)
  }

  /** Coercions may look at what an object reaches too. */
  ghost predicate NaturalCoercions(host: Host) {
    && (forall p, v1, v2, h1, h2 | Matching(p, h1, h2) && Paired(p, v1, v2) ::
          host.number(v1, h1) == host.number(v2, h2) && host.text(v1, h1) == host.text(v2, h2))
    && (forall p, v1, v2, w1, w2, h1, h2 | Matching(p, h1, h2) && Paired(p, v1, v2) && Paired(p, w1, w2) ::
          && host.looselyEqual(v1, w1, h1) == host.looselyEqual(v2, w2, h2)
          && forall op :: host.relation(op, v1, w1, h1) == host.relation(op, v2, w2, h2))
  }

  /** Properties of primitives and functions are no objects of the heap. */
  ghost predicate PlainBoxes(host: Host) {
    forall v, k :: !host.boxed(v, k).Obj?
  }

  ghost predicate Natural(host: Host, names: set<string>) {
    && PlainBoxes(host) && NaturalCoercions(host)
    && forall f | f in names :: NaturalFilter(host, f) && TidyFilter(host, f)
  }

  /** A host in which nothing happens: functions return undefined, and filters their first argument. */
  function SilentHost(): Host {
    Host((_, _) => NaN, (_, _) => "", (_, _, _) => NaN, (_, _, _, _) => false, (_, _, _) => false, (_, _) => Undefined,
         (f, context, args, h) => Ok(Undefined, h),
         (name, args, h) => Ok(if |args| == 0 then Undefined else args[0], h))
  }

  /** The correspondence of `SameValue`. */
  ghost function Pairs(b: nat, n1: nat, n2: nat): Pairing {
    iset x: (nat, nat) | (x.0 == x.1 && x.0 < b) || (x.0 >= n1 && x.1 >= n2 && x.0 - n1 == x.1 - n2)
  }

  lemma SlotsPaired(b: nat, n1: nat, n2: nat, s1: Slots, s2: Slots)
    requires SameSlots(b, n1, n2, s1, s2)
    ensures PairedSlots(Pairs(b, n1, n2), s1, s2)
  {
  }

  lemma AlikeMatches(b: nat, n1: nat, n2: nat, h1: Heap, h2: Heap)
    requires Alike(b, n1, n2, h1, h2)
    ensures Matching(Pairs(b, n1, n2), h1, h2)
  {
    var p := Pairs(b, n1, n2);
    forall x | x in p ensures PairedSlots(p, SlotsOf(h1, x.0), SlotsOf(h2, x.1)) {
      if x.0 == x.1 && x.0 < b {
        SharedPaired(b, n1, n2, h1, h2, x.0);
      } else {
        var k: nat := x.0 - n1;
        assert Twins(b, n1, n2, h1, h2, k);
        SlotsPaired(b, n1, n2, SlotsOf(h1, x.0), SlotsOf(h2, x.1));
      }
    }
  }

  lemma SharedPaired(b: nat, n1: nat, n2: nat, h1: Heap, h2: Heap, r: nat)
    requires Shared(b, h1, h2) && r < b
    ensures PairedSlots(Pairs(b, n1, n2), SlotsOf(h1, r), SlotsOf(h2, r))
  {
  }

  /** What two such calls make is the same, up to the identity of what the runs made. */
  lemma MadeSame(p: Pairing, b: nat, n1: nat, n2: nat, h1: Heap, h2: Heap, o1: Result<Value>, o2: Result<Value>)
    requires SameFresh(b, n1, n2, h1, h2) && p <= Pairs(b, n1, n2) && SameMade(p, h1, h2, o1, o2)
    requires OnlyAdds(h1, o1.heap) && OnlyAdds(h2, o2.heap)
    ensures SameResult(b, n1, n2, o1, o2)
  {
    if o1.Ok? {
      var q := WithNew(p, h1.next, h2.next);
      assert q <= Pairs(b, n1, n2);
      forall k: nat ensures Twins(b, n1, n2, o1.heap, o2.heap, k) {
        MadeTwins(q, b, n1, n2, h1, h2, o1.heap, o2.heap, k);
      }
    }
  }

  lemma FilterResultSame(host: Host, f: string, p: Pairing, b: nat, n1: nat, n2: nat,
                         vs1: seq<Value>, vs2: seq<Value>, h1: Heap, h2: Heap)
    requires NaturalFilter(host, f) && TidyFilter(host, f) && SameFresh(b, n1, n2, h1, h2)
    requires p <= Pairs(b, n1, n2) && Matching(p, h1, h2) && PairedAll(p, vs1, vs2)
    ensures SameResult(b, n1, n2, host.filter(f, vs1, h1), host.filter(f, vs2, h2))
  {
    MadeSame(p, b, n1, n2, h1, h2, host.filter(f, vs1, h1), host.filter(f, vs2, h2));
  }

  lemma CallResultSame(host: Host, f: nat, b: nat, n1: nat, n2: nat, c1: Value, c2: Value,
                       vs1: seq<Value>, vs2: seq<Value>, h1: Heap, h2: Heap)
    requires QuietCalls(host, b) && Alike(b, n1, n2, h1, h2)
    requires SameValue(b, n1, n2, c1, c2) && SameValues(b, n1, n2, vs1, vs2)
    ensures var o1, o2 := host.call(f, c1, vs1, h1), host.call(f, c2, vs2, h2);
            SameResult(b, n1, n2, o1, o2) && Kept(n1, h1, o1.heap) && Kept(n2, h2, o2.heap)
  {
    var p := Pairs(b, n1, n2);
    var o1, o2 := host.call(f, c1, vs1, h1), host.call(f, c2, vs2, h2);
    AlikeMatches(b, n1, n2, h1, h2);
    assert NaturalCall(host, f, b) && TidyCall(host, f);
    assert SharedBelow(p, b) && Paired(p, c1, c2) && PairedAll(p, vs1, vs2);
    assert SameMade(p, h1, h2, o1, o2);
    assert OnlyAdds(h1, o1.heap) && OnlyAdds(h2, o2.heap);
    MadeSame(p, b, n1, n2, h1, h2, o1, o2);
  }

  lemma MadeTwins(q: Pairing, b: nat, n1: nat, n2: nat, h1: Heap, h2: Heap, g1: Heap, g2: Heap, k: nat)
    requires SameFresh(b, n1, n2, h1, h2) && q <= Pairs(b, n1, n2)
    requires g1.next - h1.next == g2.next - h2.next && h1.next <= g1.next
    requires Kept(h1.next, h1, g1) && Kept(h2.next, h2, g2) && NoStrays(h1, g1) && NoStrays(h2, g2)
    requires forall j: nat | h1.next + j < g1.next :: NewTwins(q, h1.next, h2.next, g1, g2, j)
    ensures Twins(b, n1, n2, g1, g2, k)
  {
    if n1 + k < h1.next || n1 + k >= g1.next {
      assert Twins(b, n1, n2, h1, h2, k);
    } else {
      var j: nat := n1 + k - h1.next;
      assert NewTwins(q, h1.next, h2.next, g1, g2, j);
    }
  }

  // ---- heap operations in step

  lemma ReadSame(host: Host, b: nat, n1: nat, n2: nat, v1: Value, v2: Value, key: string, h1: Heap, h2: Heap)
    requires PlainBoxes(host)
    requires SameValue(b, n1, n2, v1, v2) && SameFresh(b, n1, n2, h1, h2) && Shared(b, h1, h2)
    ensures SameValue(b, n1, n2, Read(host, v1, key, h1), Read(host, v2, key, h2))
  {
    if v1.Obj? && v1.ref >= n1 && v2.ref >= n2 && v1.ref - n1 == v2.ref - n2 {
      var k: nat := v1.ref - n1;
      assert Twins(b, n1, n2, h1, h2, k);
    }
  }

  lemma AllocSame(b: nat, n1: nat, n2: nat, s1: Slots, s2: Slots, h1: Heap, h2: Heap)
    requires SameFresh(b, n1, n2, h1, h2) && SameSlots(b, n1, n2, s1, s2)
    ensures SameValue(b, n1, n2, Alloc(h1, s1).0, Alloc(h2, s2).0)
    ensures SameFresh(b, n1, n2, Alloc(h1, s1).1, Alloc(h2, s2).1)
    ensures Kept(h1.next, h1, Alloc(h1, s1).1) && Kept(h2.next, h2, Alloc(h2, s2).1)
  {
    var g1 := Alloc(h1, s1).1;
    var g2 := Alloc(h2, s2).1;
    forall k: nat ensures Twins(b, n1, n2, g1, g2, k) {
      assert Twins(b, n1, n2, h1, h2, k);
    }
  }

  lemma WriteSame(b: nat, n1: nat, n2: nat, c1: Value, c2: Value, key: string, v1: Value, v2: Value, h1: Heap, h2: Heap)
    requires b == 0 && SameFresh(b, n1, n2, h1, h2)
    requires SameValue(b, n1, n2, c1, c2) && SameValue(b, n1, n2, v1, v2)
    ensures SameFresh(b, n1, n2, Write(c1, key, v1, h1), Write(c2, key, v2, h2))
    ensures Kept(n1, h1, Write(c1, key, v1, h1)) && Kept(n2, h2, Write(c2, key, v2, h2))
  {
    var g1 := Write(c1, key, v1, h1);
    var g2 := Write(c2, key, v2, h2);
    forall k: nat ensures Twins(b, n1, n2, g1, g2, k) {
      assert Twins(b, n1, n2, h1, h2, k);
    }
  }

  lemma CreateSame(b: nat, n1: nat, n2: nat, c1: Value, c2: Value, key: string, h1: Heap, h2: Heap)
    requires b == 0 && SameFresh(b, n1, n2, h1, h2) && SameValue(b, n1, n2, c1, c2)
    ensures SameFresh(b, n1, n2, CreateSlot(c1, key, h1), CreateSlot(c2, key, h2))
    ensures Kept(n1, h1, CreateSlot(c1, key, h1)) && Kept(n2, h2, CreateSlot(c2, key, h2))
  {
    if c1.Obj? {
      AllocSame(b, n1, n2, map[], map[], h1, h2);
      var (f1, g1) := Alloc(h1, map[]);
      var (f2, g2) := Alloc(h2, map[]);
      WriteSame(b, n1, n2, c1, c2, key, f1, f2, g1, g2);
    }
  }

  lemma {:induction false} ItemSlotsSame(b: nat, n1: nat, n2: nat, vs1: seq<Value>, vs2: seq<Value>)
    requires SameValues(b, n1, n2, vs1, vs2)
    ensures SameSlots(b, n1, n2, ItemSlots(vs1), ItemSlots(vs2))
    decreases |vs1|
  {
    if |vs1| > 0 { ItemSlotsSame(b, n1, n2, vs1[..|vs1| - 1], vs2[..|vs2| - 1]); }
  }

  lemma ArraySlotsSame(b: nat, n1: nat, n2: nat, vs1: seq<Value>, vs2: seq<Value>)
    requires SameValues(b, n1, n2, vs1, vs2)
    ensures SameSlots(b, n1, n2, ArraySlots(vs1), ArraySlots(vs2))
  {
    ItemSlotsSame(b, n1, n2, vs1, vs2);
  }

  lemma ChoicesSame(b: nat, n1: nat, n2: nat, a1: Value, a2: Value)
    requires SameValue(b, n1, n2, a1, a2)
    ensures Nullish(a1) == Nullish(a2) && Truthy(a1) == Truthy(a2) && forall op :: Settled(op, a1) == Settled(op, a2)
  {
  }

  lemma CoercedSame(host: Host, b: nat, n1: nat, n2: nat, a1: Value, a2: Value, h1: Heap, h2: Heap)
    requires NaturalCoercions(host) && Alike(b, n1, n2, h1, h2) && SameValue(b, n1, n2, a1, a2)
    ensures host.number(a1, h1) == host.number(a2, h2) && host.text(a1, h1) == host.text(a2, h2)
  {
    AlikeMatches(b, n1, n2, h1, h2);
    assert Paired(Pairs(b, n1, n2), a1, a2);
  }

  lemma ComparedSame(host: Host, b: nat, n1: nat, n2: nat, a1: Value, a2: Value, c1: Value, c2: Value,
                     h1: Heap, h2: Heap)
    requires NaturalCoercions(host) && Alike(b, n1, n2, h1, h2)
    requires SameValue(b, n1, n2, a1, a2) && SameValue(b, n1, n2, c1, c2)
    ensures host.looselyEqual(a1, c1, h1) == host.looselyEqual(a2, c2, h2)
    ensures forall op :: host.relation(op, a1, c1, h1) == host.relation(op, a2, c2, h2)
  {
    AlikeMatches(b, n1, n2, h1, h2);
    assert Paired(Pairs(b, n1, n2), a1, a2) && Paired(Pairs(b, n1, n2), c1, c2);
  }

  lemma OperatorSame(host: Host, b: nat, n1: nat, n2: nat, op: BinaryOp, a1: Value, a2: Value, c1: Value, c2: Value,
                     g1: Heap, g2: Heap, h1: Heap, h2: Heap)
    requires NaturalCoercions(host) && Alike(b, n1, n2, g1, g2) && Alike(b, n1, n2, h1, h2)
    requires SameValue(b, n1, n2, a1, a2) && SameValue(b, n1, n2, c1, c2)
    ensures SameValue(b, n1, n2, ApplyBinary(host, op, a1, c1, g1, h1), ApplyBinary(host, op, a2, c2, g2, h2))
  {
    CoercedSame(host, b, n1, n2, a1, a2, g1, g2);
    CoercedSame(host, b, n1, n2, a1, a2, h1, h2);
    CoercedSame(host, b, n1, n2, c1, c2, h1, h2);
    ComparedSame(host, b, n1, n2, a1, a2, c1, c2, h1, h2);
  }

  // ---- evaluation in step

  /**
   * Two runs: where they start from, what they share, where each began to make its own objects, and whether they may
   * call functions.
   */
  datatype Runs = Runs(env1: Env, env2: Env, b: nat, n1: nat, n2: nat, calls: bool)

  /** One of the two situations in which two runs stay in step. */
  ghost predicate InStep(constant: bool, effectFree: bool, r: Runs, h1: Heap, h2: Heap) {
    || (effectFree && r.env1 == r.env2 && EnvBelow(r.env1, r.b) && Shared(r.b, h1, h2))
    || (constant && r.b == 0)
  }

  lemma StillInStep(constant: bool, effectFree: bool, r: Runs, h1: Heap, h2: Heap, g1: Heap, g2: Heap)
    requires InStep(constant, effectFree, r, h1, h2)
    requires r.b <= r.n1 && r.b <= r.n2 && Kept(r.n1, h1, g1) && Kept(r.n2, h2, g2)
    ensures InStep(constant, effectFree, r, g1, g2) && Shared(r.b, g1, g2)
  {
  }

  /** The host is as the two runs need it. */
  ghost predicate Fit(host: Host, names: set<string>, r: Runs) {
    Natural(host, names) && (r.calls ==> QuietCalls(host, r.b))
  }

  /** The two evaluations come out the same and leave older objects alone. */
  ghost predicate Agrees(host: Host, e: Expr, asReference: bool, create: Create, r: Runs, h1: Heap, h2: Heap) {
    var o1 := Eval(host, e, asReference, create, r.env1, h1);
    var o2 := Eval(host, e, asReference, create, r.env2, h2);
    SameOutcome(r.b, r.n1, r.n2, o1, o2) && Kept(r.n1, h1, o1.heap) && Kept(r.n2, h2, o2.heap)
  }

  ghost predicate AgreesAll(host: Host, es: seq<Expr>, r: Runs, h1: Heap, h2: Heap) {
    var o1, o2 := EvalAll(host, es, r.env1, h1), EvalAll(host, es, r.env2, h2);
    SameList(r.b, r.n1, r.n2, o1, o2) && Kept(r.n1, h1, o1.heap) && Kept(r.n2, h2, o2.heap)
  }

  ghost predicate AgreesArgs(host: Host, es: seq<Expr>, r: Runs, h1: Heap, h2: Heap) {
    var o1, o2 := EvalCallArgs(host, es, r.env1, h1), EvalCallArgs(host, es, r.env2, h2);
    SameList(r.b, r.n1, r.n2, o1, o2) && Kept(r.n1, h1, o1.heap) && Kept(r.n2, h2, o2.heap)
  }

  ghost predicate SameList(b: nat, n1: nat, n2: nat, o1: Result<seq<Value>>, o2: Result<seq<Value>>) {
    o1.Ok? == o2.Ok?
    && (o1.Ok? ==> SameValues(b, n1, n2, o1.value, o2.value) && SameFresh(b, n1, n2, o1.heap, o2.heap))
  }

  ghost predicate SameBuilt(b: nat, n1: nat, n2: nat, o1: Result<Slots>, o2: Result<Slots>) {
    o1.Ok? == o2.Ok?
    && (o1.Ok? ==> SameSlots(b, n1, n2, o1.value, o2.value) && SameFresh(b, n1, n2, o1.heap, o2.heap))
  }

  /** Where two runs of an expression stand when it is to be evaluated. */
  ghost predicate Ready(host: Host, names: set<string>, e: Expr, create: Create, r: Runs, h1: Heap, h2: Heap) {
    && Fit(host, names, r) && SameFresh(r.b, r.n1, r.n2, h1, h2) && FiltersAmong(e, names)
    && InStep(IsConstant(e), EffectFree(e, r.calls) && create.No?, r, h1, h2)
  }

  /** Constants from any two states, and effect-free expressions from a heap and an extension of it. */
  lemma {:induction false} EvalSame(host: Host, names: set<string>, e: Expr, asReference: bool, create: Create, r: Runs,
                                    h1: Heap, h2: Heap)
    requires Ready(host, names, e, create, r, h1, h2)
    ensures Agrees(host, e, asReference, create, r, h1, h2)
    decreases e, 2
  {
    match e
    case Unary(_, _) => UnarySame(host, names, e, asReference, create, r, h1, h2);
    case Binary(_, _, _) => BinarySame(host, names, e, asReference, create, r, h1, h2);
    case Logical(_, _, _) => LogicalSame(host, names, e, asReference, create, r, h1, h2);
    case Conditional(_, _, _) => ConditionalSame(host, names, e, asReference, create, r, h1, h2);
    case Identifier(_) => IdentifierSame(host, names, e, asReference, create, r, h1, h2);
    case Member(_, _) => MemberSame(host, names, e, asReference, create, r, h1, h2);
    case Computed(_, _) => ComputedSame(host, names, e, asReference, create, r, h1, h2);
    case Call(_, _) => CallSame(host, names, e, asReference, create, r, h1, h2);
    case Filter(_, _) => FilterSame(host, names, e, asReference, create, r, h1, h2);
    case Assignment(_, _) => AssignmentSame(host, names, e, asReference, create, r, h1, h2);
    case Array(_) => ArraySame(host, names, e, asReference, create, r, h1, h2);
    case ObjectLiteral(_) => ObjectSame(host, names, e, asReference, create, r, h1, h2);
    case Literal(_) => LeafSame(host, names, e, asReference, create, r, h1, h2);
    case This => LeafSame(host, names, e, asReference, create, r, h1, h2);
    case Locals => LeafSame(host, names, e, asReference, create, r, h1, h2);
    case _ => assert false;
  }

  lemma LeafSame(host: Host, names: set<string>, e: Expr, asReference: bool, create: Create, r: Runs, h1: Heap,
      h2: Heap)
    requires e.Literal? || e.This? || e.Locals?
    requires Ready(host, names, e, create, r, h1, h2)
    ensures Agrees(host, e, asReference, create, r, h1, h2)
  {
  }

  lemma IdentifierSame(host: Host, names: set<string>, e: Expr, asReference: bool, create: Create, r: Runs,
                       h1: Heap, h2: Heap)
    requires e.Identifier? && Ready(host, names, e, create, r, h1, h2)
    ensures Agrees(host, e, asReference, create, r, h1, h2)
  {
    var base := Base(r.env1, e.name, h1);
    ReadSame(host, r.b, r.n1, r.n2, base, base, e.name, h1, h2);
  }

  lemma {:induction false} UnarySame(host: Host, names: set<string>, e: Expr, asReference: bool, create: Create,
                                     r: Runs, h1: Heap, h2: Heap)
    requires e.Unary? && Ready(host, names, e, create, r, h1, h2)
    ensures Agrees(host, e, asReference, create, r, h1, h2)
    decreases e, 1
  {
    EvalSame(host, names, e.operand, false, No, r, h1, h2);
    var o1 := Eval(host, e.operand, false, No, r.env1, h1);
    var o2 := Eval(host, e.operand, false, No, r.env2, h2);
    if o1.Ok? {
      StillInStep(IsConstant(e), EffectFree(e, r.calls) && create.No?, r, h1, h2, o1.heap, o2.heap);
      CoercedSame(host, r.b, r.n1, r.n2, o1.value.value, o2.value.value, o1.heap, o2.heap);
      Ends(host, e, asReference, create, r, h1, h2, o1.heap, o2.heap,
           Ok(Wrap(asReference, ApplyUnary(host, e.uop, o1.value.value, o1.heap)), o1.heap),
           Ok(Wrap(asReference, ApplyUnary(host, e.uop, o2.value.value, o2.heap)), o2.heap));
    }
  }

  lemma {:induction false} BinarySame(host: Host, names: set<string>, e: Expr, asReference: bool, create: Create,
                                      r: Runs, h1: Heap, h2: Heap)
    requires e.Binary? && Ready(host, names, e, create, r, h1, h2)
    ensures Agrees(host, e, asReference, create, r, h1, h2)
    decreases e, 1
  {
    EvalSame(host, names, e.left, false, No, r, h1, h2);
    var l1 := Eval(host, e.left, false, No, r.env1, h1);
    var l2 := Eval(host, e.left, false, No, r.env2, h2);
    if l1.Ok? {
      StillInStep(IsConstant(e), EffectFree(e, r.calls) && create.No?, r, h1, h2, l1.heap, l2.heap);
      EvalSame(host, names, e.right, false, No, r, l1.heap, l2.heap);
      var r1 := Eval(host, e.right, false, No, r.env1, l1.heap);
      var r2 := Eval(host, e.right, false, No, r.env2, l2.heap);
      KeptOn(r, h1, h2, l1.heap, l2.heap, r1.heap, r2.heap);
      if r1.Ok? {
        StillInStep(IsConstant(e), EffectFree(e, r.calls) && create.No?, r, l1.heap, l2.heap, r1.heap, r2.heap);
        OperatorSame(host, r.b, r.n1, r.n2, e.bop, l1.value.value, l2.value.value, r1.value.value, r2.value.value,
                     l1.heap, l2.heap, r1.heap, r2.heap);
        var v1 := ApplyBinary(host, e.bop, l1.value.value, r1.value.value, l1.heap, r1.heap);
        var v2 := ApplyBinary(host, e.bop, l2.value.value, r2.value.value, l2.heap, r2.heap);
        Ends(host, e, asReference, create, r, h1, h2, r1.heap, r2.heap,
             Ok(Wrap(asReference, v1), r1.heap), Ok(Wrap(asReference, v2), r2.heap));
      }
    }
  }

  lemma {:induction false} LogicalSame(host: Host, names: set<string>, e: Expr, asReference: bool, create: Create,
                                       r: Runs, h1: Heap, h2: Heap)
    requires e.Logical? && Ready(host, names, e, create, r, h1, h2)
    ensures Agrees(host, e, asReference, create, r, h1, h2)
    decreases e, 1
  {
    EvalSame(host, names, e.left, false, No, r, h1, h2);
    var l1 := Eval(host, e.left, false, No, r.env1, h1);
    var l2 := Eval(host, e.left, false, No, r.env2, h2);
    if l1.Ok? {
      ChoicesSame(r.b, r.n1, r.n2, l1.value.value, l2.value.value);
      StillInStep(IsConstant(e), EffectFree(e, r.calls) && create.No?, r, h1, h2, l1.heap, l2.heap);
      if !Settled(e.lop, l1.value.value) {
        EvalSame(host, names, e.right, false, No, r, l1.heap, l2.heap);
        var r1 := Eval(host, e.right, false, No, r.env1, l1.heap);
        var r2 := Eval(host, e.right, false, No, r.env2, l2.heap);
        KeptOn(r, h1, h2, l1.heap, l2.heap, r1.heap, r2.heap);
        Passed(r, r1, r2, asReference, Eval(host, e, asReference, create, r.env1, h1),
               Eval(host, e, asReference, create, r.env2, h2));
      } else {
        Passed(r, l1, l2, asReference, Eval(host, e, asReference, create, r.env1, h1),
               Eval(host, e, asReference, create, r.env2, h2));
      }
    }
  }

  lemma KeptOn(r: Runs, h1: Heap, h2: Heap, g1: Heap, g2: Heap, o1: Heap, o2: Heap)
    requires Kept(r.n1, h1, g1) && Kept(r.n2, h2, g2) && Kept(r.n1, g1, o1) && Kept(r.n2, g2, o2)
    ensures Kept(r.n1, h1, o1) && Kept(r.n2, h2, o2)
  {
  }

  /** The end of an evaluation after some of its parts. */
  lemma Ends(host: Host, e: Expr, asReference: bool, create: Create, r: Runs, h1: Heap, h2: Heap, g1: Heap, g2: Heap,
             o1: Outcome, o2: Outcome)
    requires Kept(r.n1, h1, g1) && Kept(r.n2, h2, g2) && Kept(r.n1, g1, o1.heap) && Kept(r.n2, g2, o2.heap)
    requires SameOutcome(r.b, r.n1, r.n2, o1, o2)
    requires Eval(host, e, asReference, create, r.env1, h1) == o1
    requires Eval(host, e, asReference, create, r.env2, h2) == o2
    ensures Agrees(host, e, asReference, create, r, h1, h2)
  {
  }

  /** The value of a part handed on as the value of the whole. */
  lemma Passed(r: Runs, i1: Outcome, i2: Outcome, asReference: bool, o1: Outcome, o2: Outcome)
    requires SameOutcome(r.b, r.n1, r.n2, i1, i2)
    requires o1 == if i1.Ok? then Ok(Wrap(asReference, i1.value.value), i1.heap) else Threw(i1.heap)
    requires o2 == if i2.Ok? then Ok(Wrap(asReference, i2.value.value), i2.heap) else Threw(i2.heap)
    ensures SameOutcome(r.b, r.n1, r.n2, o1, o2)
  {
  }

  lemma {:induction false} ConditionalSame(host: Host, names: set<string>, e: Expr, asReference: bool, create: Create,
                                           r: Runs, h1: Heap, h2: Heap)
    requires e.Conditional? && Ready(host, names, e, create, r, h1, h2)
    ensures Agrees(host, e, asReference, create, r, h1, h2)
    decreases e, 1
  {
    EvalSame(host, names, e.test, false, No, r, h1, h2);
    var t1 := Eval(host, e.test, false, No, r.env1, h1);
    var t2 := Eval(host, e.test, false, No, r.env2, h2);
    if t1.Ok? {
      ChoicesSame(r.b, r.n1, r.n2, t1.value.value, t2.value.value);
      StillInStep(IsConstant(e), EffectFree(e, r.calls) && create.No?, r, h1, h2, t1.heap, t2.heap);
      if Truthy(t1.value.value) {
        EvalSame(host, names, e.alternate, false, No, r, t1.heap, t2.heap);
        var r1 := Eval(host, e.alternate, false, No, r.env1, t1.heap);
        var r2 := Eval(host, e.alternate, false, No, r.env2, t2.heap);
        KeptOn(r, h1, h2, t1.heap, t2.heap, r1.heap, r2.heap);
        Passed(r, r1, r2, asReference, Eval(host, e, asReference, create, r.env1, h1),
               Eval(host, e, asReference, create, r.env2, h2));
      } else {
        EvalSame(host, names, e.consequent, false, No, r, t1.heap, t2.heap);
        var r1 := Eval(host, e.consequent, false, No, r.env1, t1.heap);
        var r2 := Eval(host, e.consequent, false, No, r.env2, t2.heap);
        KeptOn(r, h1, h2, t1.heap, t2.heap, r1.heap, r2.heap);
        Passed(r, r1, r2, asReference, Eval(host, e, asReference, create, r.env1, h1),
               Eval(host, e, asReference, create, r.env2, h2));
      }
    }
  }

  /** The end of a member read, which in create mode may add a fresh object to a fresh one. */
  lemma LookupSame(host: Host, b: nat, n1: nat, n2: nat, s1: Value, s2: Value, name: string, asReference: bool,
                   create: Create, h1: Heap, h2: Heap)
    requires PlainBoxes(host) && SameFresh(b, n1, n2, h1, h2) && Shared(b, h1, h2)
    requires SameValue(b, n1, n2, s1, s2) && (create.Yes? ==> b == 0)
    ensures var o1 := ReadMember(host, s1, name, asReference, create, h1);
            var o2 := ReadMember(host, s2, name, asReference, create, h2);
            SameOutcome(b, n1, n2, o1, o2) && Kept(n1, h1, o1.heap) && Kept(n2, h2, o2.heap)
    ensures var o1 := ReadComputed(host, s1, name, asReference, create, h1);
            var o2 := ReadComputed(host, s2, name, asReference, create, h2);
            SameOutcome(b, n1, n2, o1, o2) && Kept(n1, h1, o1.heap) && Kept(n2, h2, o2.heap)
  {
    ReadSame(host, b, n1, n2, s1, s2, name, h1, h2);
    if create.Yes? {
      CreateSame(b, n1, n2, s1, s2, name, h1, h2);
      ReadSame(host, b, n1, n2, s1, s2, name, CreateSlot(s1, name, h1), CreateSlot(s2, name, h2));
    }
  }

  lemma {:induction false} MemberSame(host: Host, names: set<string>, e: Expr, asReference: bool, create: Create,
                                      r: Runs, h1: Heap, h2: Heap)
    requires e.Member? && Ready(host, names, e, create, r, h1, h2)
    ensures Agrees(host, e, asReference, create, r, h1, h2)
    decreases e, 1
  {
    var deep := if create.No? then No else Yes;
    EvalSame(host, names, e.subject, false, deep, r, h1, h2);
    var s1 := Eval(host, e.subject, false, deep, r.env1, h1);
    var s2 := Eval(host, e.subject, false, deep, r.env2, h2);
    if s1.Ok? {
      StillInStep(IsConstant(e), EffectFree(e, r.calls) && create.No?, r, h1, h2, s1.heap, s2.heap);
      LookupSame(host, r.b, r.n1, r.n2, s1.value.value, s2.value.value, e.property, asReference, create,
                 s1.heap, s2.heap);
    }
  }

  lemma {:induction false} ComputedSame(host: Host, names: set<string>, e: Expr, asReference: bool, create: Create,
                                        r: Runs, h1: Heap, h2: Heap)
    requires e.Computed? && Ready(host, names, e, create, r, h1, h2)
    ensures Agrees(host, e, asReference, create, r, h1, h2)
    decreases e, 1
  {
    var deep := if create.No? then No else Yes;
    EvalSame(host, names, e.subject, false, deep, r, h1, h2);
    var s1 := Eval(host, e.subject, false, deep, r.env1, h1);
    var s2 := Eval(host, e.subject, false, deep, r.env2, h2);
    if s1.Ok? {
      StillInStep(IsConstant(e), EffectFree(e, r.calls) && create.No?, r, h1, h2, s1.heap, s2.heap);
      ChoicesSame(r.b, r.n1, r.n2, s1.value.value, s2.value.value);
      if !Nullish(s1.value.value) {
        IndexSame(host, names, e, asReference, create, r, s1.value.value, s2.value.value, s1.heap, s2.heap);
        Ends(host, e, asReference, create, r, h1, h2, s1.heap, s2.heap,
             AtIndex(host, e.index, s1.value.value, asReference, create, r.env1, s1.heap),
             AtIndex(host, e.index, s2.value.value, asReference, create, r.env2, s2.heap));
      }
    }
  }

  /** A computed member read once its subject is known. */
  function AtIndex(host: Host, index: Expr, subject: Value, asReference: bool, create: Create, env: Env,
      h: Heap): Outcome {
    var (i, h1) :- Eval(host, index, false, No, env, h);
    ReadComputed(host, subject, host.text(i.value, h1), asReference, create, h1)
  }

  lemma {:induction false} IndexSame(host: Host, names: set<string>, e: Expr, asReference: bool, create: Create,
                                     r: Runs, v1: Value, v2: Value, h1: Heap, h2: Heap)
    requires e.Computed? && Ready(host, names, e, create, r, h1, h2) && SameValue(r.b, r.n1, r.n2, v1, v2)
    ensures var o1 := AtIndex(host, e.index, v1, asReference, create, r.env1, h1);
            var o2 := AtIndex(host, e.index, v2, asReference, create, r.env2, h2);
            SameOutcome(r.b, r.n1, r.n2, o1, o2) && Kept(r.n1, h1, o1.heap) && Kept(r.n2, h2, o2.heap)
    decreases e, 0
  {
    EvalSame(host, names, e.index, false, No, r, h1, h2);
    var i1 := Eval(host, e.index, false, No, r.env1, h1);
    var i2 := Eval(host, e.index, false, No, r.env2, h2);
    if i1.Ok? {
      StillInStep(IsConstant(e), EffectFree(e, r.calls) && create.No?, r, h1, h2, i1.heap, i2.heap);
      CoercedSame(host, r.b, r.n1, r.n2, i1.value.value, i2.value.value, i1.heap, i2.heap);
      LookupSame(host, r.b, r.n1, r.n2, v1, v2, host.text(i1.value.value, i1.heap), asReference, create,
                 i1.heap, i2.heap);
    }
  }

  lemma {:induction false} FilterSame(host: Host, names: set<string>, e: Expr, asReference: bool, create: Create,
                                      r: Runs, h1: Heap, h2: Heap)
    requires e.Filter? && Ready(host, names, e, create, r, h1, h2)
    ensures Agrees(host, e, asReference, create, r, h1, h2)
    decreases e, 1
  {
    EvalAllSame(host, names, e.args, r, h1, h2);
    var o1, o2 := EvalAll(host, e.args, r.env1, h1), EvalAll(host, e.args, r.env2, h2);
    if o1.Ok? {
      StillInStep(IsConstant(e), EffectFree(e, r.calls) && create.No?, r, h1, h2, o1.heap, o2.heap);
      AlikeMatches(r.b, r.n1, r.n2, o1.heap, o2.heap);
      FilterResultSame(host, e.filter, Pairs(r.b, r.n1, r.n2), r.b, r.n1, r.n2, o1.value, o2.value, o1.heap, o2.heap);
    }
    FilterEnds(host, e, asReference, create, r, h1, h2);
  }

  lemma FilterEnds(host: Host, e: Expr, asReference: bool, create: Create, r: Runs, h1: Heap, h2: Heap)
    requires e.Filter? && TidyFilter(host, e.filter) && SameFresh(r.b, r.n1, r.n2, h1, h2)
    requires AgreesAll(host, e.args, r, h1, h2)
    requires var o1, o2 := EvalAll(host, e.args, r.env1, h1), EvalAll(host, e.args, r.env2, h2);
             o1.Ok? ==> SameResult(r.b, r.n1, r.n2, host.filter(e.filter, o1.value, o1.heap),
                                   host.filter(e.filter, o2.value, o2.heap))
    ensures Agrees(host, e, asReference, create, r, h1, h2)
  {
    var o1, o2 := EvalAll(host, e.args, r.env1, h1), EvalAll(host, e.args, r.env2, h2);
    if o1.Ok? {
      var f1 := host.filter(e.filter, o1.value, o1.heap);
      var f2 := host.filter(e.filter, o2.value, o2.heap);
      assert Kept(o1.heap.next, o1.heap, f1.heap) && Kept(o2.heap.next, o2.heap, f2.heap);
    }
  }

  // ---- calls in step

  /** A call once the function is known. */
  function Invoke(host: Host, args: seq<Expr>, f: nat, context: Value, asReference: bool, env: Env, h: Heap): Outcome {
    var (vs, h1) :- EvalCallArgs(host, args, env, h);
    var (v, h2) :- host.call(f, context, vs, h1);
    Ok(Wrap(asReference, v), h2)
  }

  lemma {:induction false} CallSame(host: Host, names: set<string>, e: Expr, asReference: bool, create: Create,
                                    r: Runs, h1: Heap, h2: Heap)
    requires e.Call? && Ready(host, names, e, create, r, h1, h2)
    ensures Agrees(host, e, asReference, create, r, h1, h2)
    decreases e, 1
  {
    if e.callee.Filter? {
      ThunkSame(host, names, e, asReference, create, r, h1, h2);
    } else {
      EvalSame(host, names, e.callee, true, No, r, h1, h2);
      var f1 := Eval(host, e.callee, true, No, r.env1, h1);
      var f2 := Eval(host, e.callee, true, No, r.env2, h2);
      if f1.Ok? && f1.value.value.Func? {
        var f := f1.value.value.id;
        StillInStep(false, true, r, h1, h2, f1.heap, f2.heap);
        InvokeSame(host, names, e, asReference, r, f, f1.value.context, f2.value.context, f1.heap, f2.heap);
        Ends(host, e, asReference, create, r, h1, h2, f1.heap, f2.heap,
             Invoke(host, e.args, f, f1.value.context, asReference, r.env1, f1.heap),
             Invoke(host, e.args, f, f2.value.context, asReference, r.env2, f2.heap));
      }
    }
  }

  lemma {:induction false} InvokeSame(host: Host, names: set<string>, e: Expr, asReference: bool, r: Runs, f: nat,
                                      c1: Value, c2: Value, h1: Heap, h2: Heap)
    requires e.Call? && Fit(host, names, r) && r.calls && SameFresh(r.b, r.n1, r.n2, h1, h2)
    requires AllFiltersAmong(e.args, names) && AllEffectFree(e.args, true) && InStep(false, true, r, h1, h2)
    requires SameValue(r.b, r.n1, r.n2, c1, c2)
    ensures var o1 := Invoke(host, e.args, f, c1, asReference, r.env1, h1);
            var o2 := Invoke(host, e.args, f, c2, asReference, r.env2, h2);
            SameOutcome(r.b, r.n1, r.n2, o1, o2) && Kept(r.n1, h1, o1.heap) && Kept(r.n2, h2, o2.heap)
    decreases e, 0
  {
    EvalCallArgsSame(host, names, e.args, r, h1, h2);
    var o1, o2 := EvalCallArgs(host, e.args, r.env1, h1), EvalCallArgs(host, e.args, r.env2, h2);
    if o1.Ok? {
      StillInStep(false, true, r, h1, h2, o1.heap, o2.heap);
      CallResultSame(host, f, r.b, r.n1, r.n2, c1, c2, o1.value, o2.value, o1.heap, o2.heap);
      KeptOn(r, h1, h2, o1.heap, o2.heap, host.call(f, c1, o1.value, o1.heap).heap,
             host.call(f, c2, o2.value, o2.heap).heap);
    }
  }

  /** The end of a call whose callee is a filter. */
  function ThunkFilter(host: Host, filter: string, vs: seq<Value>, asReference: bool, h: Heap): Outcome {
    var (v, h1) :- host.filter(filter, vs, h);
    Ok(Wrap(asReference, v), h1)
  }

  lemma ThunkFilterSame(host: Host, f: string, asReference: bool, r: Runs, vs1: seq<Value>, vs2: seq<Value>,
                        h1: Heap, h2: Heap)
    requires NaturalFilter(host, f) && TidyFilter(host, f) && Alike(r.b, r.n1, r.n2, h1, h2)
    requires SameValues(r.b, r.n1, r.n2, vs1, vs2)
    ensures var o1, o2 := ThunkFilter(host, f, vs1, asReference, h1), ThunkFilter(host, f, vs2, asReference, h2);
            SameOutcome(r.b, r.n1, r.n2, o1, o2) && Kept(r.n1, h1, o1.heap) && Kept(r.n2, h2, o2.heap)
  {
    AlikeMatches(r.b, r.n1, r.n2, h1, h2);
    FilterResultSame(host, f, Pairs(r.b, r.n1, r.n2), r.b, r.n1, r.n2, vs1, vs2, h1, h2);
    assert OnlyAdds(h1, host.filter(f, vs1, h1).heap) && OnlyAdds(h2, host.filter(f, vs2, h2).heap);
  }

  /** A thunk call in a part of the expression that may call functions. */
  ghost predicate ThunkReady(host: Host, names: set<string>, e: Expr, r: Runs, h1: Heap, h2: Heap) {
    && e.Call? && e.callee.Filter? && e.callee.filter in names && Fit(host, names, r) && r.calls
    && AllFiltersAmong(e.callee.args, names) && AllEffectFree(e.callee.args, true)
    && AllFiltersAmong(e.args, names) && AllEffectFree(e.args, true)
    && InStep(false, true, r, h1, h2) && SameFresh(r.b, r.n1, r.n2, h1, h2)
  }

  lemma {:induction false} ThunkSame(host: Host, names: set<string>, e: Expr, asReference: bool, create: Create,
                                     r: Runs, h1: Heap, h2: Heap)
    requires e.Call? && e.callee.Filter? && Ready(host, names, e, create, r, h1, h2)
    ensures Agrees(host, e, asReference, create, r, h1, h2)
    decreases e, 0, 1
  {
    assert FiltersAmong(e.callee, names) && EffectFree(e.callee, true);
    if 1 <= |e.callee.args| <= 2 {
      ThunkArgsFirst(host, names, e, asReference, create, r, h1, h2);
    } else {
      ThunkArgsLast(host, names, e, asReference, create, r, h1, h2);
    }
  }

  lemma {:induction false} ThunkArgsFirst(host: Host, names: set<string>, e: Expr, asReference: bool, create: Create,
                                          r: Runs, h1: Heap, h2: Heap)
    requires ThunkReady(host, names, e, r, h1, h2) && 1 <= |e.callee.args| <= 2
    ensures Agrees(host, e, asReference, create, r, h1, h2)
    decreases e, 0, 0
  {
    var f, inner := e.callee.filter, e.callee.args;
    assert (e.callee decreases to inner);
    EvalCallArgsSame(host, names, e.args, r, h1, h2);
    var a1, a2 := EvalCallArgs(host, e.args, r.env1, h1), EvalCallArgs(host, e.args, r.env2, h2);
    if a1.Ok? {
      StillInStep(false, true, r, h1, h2, a1.heap, a2.heap);
      EvalAllSame(host, names, inner, r, a1.heap, a2.heap);
      var o1, o2 := EvalAll(host, inner, r.env1, a1.heap), EvalAll(host, inner, r.env2, a2.heap);
      KeptOn(r, h1, h2, a1.heap, a2.heap, o1.heap, o2.heap);
      if o1.Ok? {
        StillInStep(false, true, r, a1.heap, a2.heap, o1.heap, o2.heap);
        ThunkFilterSame(host, f, asReference, r, o1.value, o2.value, o1.heap, o2.heap);
        Ends(host, e, asReference, create, r, h1, h2, o1.heap, o2.heap,
             ThunkFilter(host, f, o1.value, asReference, o1.heap),
             ThunkFilter(host, f, o2.value, asReference, o2.heap));
      }
    }
  }

  lemma {:induction false} ThunkArgsLast(host: Host, names: set<string>, e: Expr, asReference: bool, create: Create,
                                         r: Runs, h1: Heap, h2: Heap)
    requires ThunkReady(host, names, e, r, h1, h2) && !(1 <= |e.callee.args| <= 2)
    ensures Agrees(host, e, asReference, create, r, h1, h2)
    decreases e, 0, 0
  {
    var f, inner := e.callee.filter, e.callee.args;
    assert (e.callee decreases to inner);
    EvalAllSame(host, names, inner, r, h1, h2);
    var o1, o2 := EvalAll(host, inner, r.env1, h1), EvalAll(host, inner, r.env2, h2);
    if o1.Ok? {
      StillInStep(false, true, r, h1, h2, o1.heap, o2.heap);
      EvalCallArgsSame(host, names, e.args, r, o1.heap, o2.heap);
      var a1, a2 := EvalCallArgs(host, e.args, r.env1, o1.heap), EvalCallArgs(host, e.args, r.env2, o2.heap);
      KeptOn(r, h1, h2, o1.heap, o2.heap, a1.heap, a2.heap);
      if a1.Ok? {
        StillInStep(false, true, r, o1.heap, o2.heap, a1.heap, a2.heap);
        ThunkFilterSame(host, f, asReference, r, o1.value, o2.value, a1.heap, a2.heap);
        Ends(host, e, asReference, create, r, h1, h2, a1.heap, a2.heap,
             ThunkFilter(host, f, o1.value, asReference, a1.heap),
             ThunkFilter(host, f, o2.value, asReference, a2.heap));
      }
    }
  }

  lemma ForceSame(host: Host, r: Runs, v1: Value, v2: Value, h1: Heap, h2: Heap)
    requires QuietCalls(host, r.b) && Alike(r.b, r.n1, r.n2, h1, h2) && SameValue(r.b, r.n1, r.n2, v1, v2)
    ensures var o1, o2 := Force(host, v1, h1), Force(host, v2, h2);
            SameResult(r.b, r.n1, r.n2, o1, o2) && Kept(r.n1, h1, o1.heap) && Kept(r.n2, h2, o2.heap)
  {
    if v1.Func? { CallResultSame(host, v1.id, r.b, r.n1, r.n2, Undefined, Undefined, [], [], h1, h2); }
  }

  lemma {:induction false} ForceAllSame(host: Host, r: Runs, vs1: seq<Value>, vs2: seq<Value>, h1: Heap, h2: Heap)
    requires QuietCalls(host, r.b) && InStep(false, true, r, h1, h2) && SameFresh(r.b, r.n1, r.n2, h1, h2)
    requires SameValues(r.b, r.n1, r.n2, vs1, vs2)
    ensures var o1, o2 := ForceAll(host, vs1, h1), ForceAll(host, vs2, h2);
            SameList(r.b, r.n1, r.n2, o1, o2) && Kept(r.n1, h1, o1.heap) && Kept(r.n2, h2, o2.heap)
    decreases |vs1|
  {
    if |vs1| > 0 {
      ForceSame(host, r, vs1[0], vs2[0], h1, h2);
      var o1, o2 := Force(host, vs1[0], h1), Force(host, vs2[0], h2);
      if o1.Ok? {
        StillInStep(false, true, r, h1, h2, o1.heap, o2.heap);
        ForceAllSame(host, r, vs1[1..], vs2[1..], o1.heap, o2.heap);
      }
    }
  }

  lemma {:induction false} EvalForcedSame(host: Host, names: set<string>, es: seq<Expr>, r: Runs, h1: Heap, h2: Heap)
    requires Fit(host, names, r) && r.calls && SameFresh(r.b, r.n1, r.n2, h1, h2)
    requires AllFiltersAmong(es, names) && AllEffectFree(es, true) && InStep(false, true, r, h1, h2)
    ensures var o1, o2 := EvalForced(host, es, r.env1, h1), EvalForced(host, es, r.env2, h2);
            SameList(r.b, r.n1, r.n2, o1, o2) && Kept(r.n1, h1, o1.heap) && Kept(r.n2, h2, o2.heap)
    decreases es, 0
  {
    if |es| > 0 {
      EvalSame(host, names, es[0], false, No, r, h1, h2);
      var a1 := Eval(host, es[0], false, No, r.env1, h1);
      var a2 := Eval(host, es[0], false, No, r.env2, h2);
      if a1.Ok? {
        StillInStep(false, true, r, h1, h2, a1.heap, a2.heap);
        ForceSame(host, r, a1.value.value, a2.value.value, a1.heap, a2.heap);
        var o1, o2 := Force(host, a1.value.value, a1.heap), Force(host, a2.value.value, a2.heap);
        KeptOn(r, h1, h2, a1.heap, a2.heap, o1.heap, o2.heap);
        if o1.Ok? {
          StillInStep(false, true, r, a1.heap, a2.heap, o1.heap, o2.heap);
          EvalForcedSame(host, names, es[1..], r, o1.heap, o2.heap);
        }
      }
    }
  }

  lemma {:induction false} EvalCallArgsSame(host: Host, names: set<string>, es: seq<Expr>, r: Runs, h1: Heap, h2: Heap)
    requires Fit(host, names, r) && r.calls && SameFresh(r.b, r.n1, r.n2, h1, h2)
    requires AllFiltersAmong(es, names) && AllEffectFree(es, true) && InStep(false, true, r, h1, h2)
    ensures AgreesArgs(host, es, r, h1, h2)
    decreases es, 1
  {
    if |es| != 2 {
      EvalForcedSame(host, names, es, r, h1, h2);
    } else {
      EvalAllSame(host, names, es, r, h1, h2);
      var o1, o2 := EvalAll(host, es, r.env1, h1), EvalAll(host, es, r.env2, h2);
      if o1.Ok? {
        StillInStep(false, true, r, h1, h2, o1.heap, o2.heap);
        ForceAllSame(host, r, o1.value, o2.value, o1.heap, o2.heap);
        KeptOn(r, h1, h2, o1.heap, o2.heap, ForceAll(host, o1.value, o1.heap).heap,
               ForceAll(host, o2.value, o2.heap).heap);
      }
    }
  }

  // ---- the other nodes in step

  lemma {:induction false} AssignmentSame(host: Host, names: set<string>, e: Expr, asReference: bool, create: Create,
                                          r: Runs, h1: Heap, h2: Heap)
    requires e.Assignment? && Ready(host, names, e, create, r, h1, h2)
    ensures Agrees(host, e, asReference, create, r, h1, h2)
    decreases e, 1
  {
    EvalSame(host, names, e.target, true, Leaf, r, h1, h2);
    var t1 := Eval(host, e.target, true, Leaf, r.env1, h1);
    var t2 := Eval(host, e.target, true, Leaf, r.env2, h2);
    if t1.Ok? {
      EvalSame(host, names, e.source, false, No, r, t1.heap, t2.heap);
      var s1 := Eval(host, e.source, false, No, r.env1, t1.heap);
      var s2 := Eval(host, e.source, false, No, r.env2, t2.heap);
      KeptOn(r, h1, h2, t1.heap, t2.heap, s1.heap, s2.heap);
      if s1.Ok? {
        StoreSame(r, asReference, t1.value, t2.value, s1.value.value, s2.value.value, s1.heap, s2.heap);
        Ends(host, e, asReference, create, r, h1, h2, s1.heap, s2.heap,
             Store(asReference, t1.value.context, t1.value.name, s1.value.value, s1.heap),
             Store(asReference, t2.value.context, t2.value.name, s2.value.value, s2.heap));
      }
    }
  }

  lemma StoreSame(r: Runs, asReference: bool, t1: Answer, t2: Answer, v1: Value, v2: Value, h1: Heap, h2: Heap)
    requires r.b == 0 && t1.Reference? && t2.Reference? && SameAnswer(r.b, r.n1, r.n2, t1, t2)
    requires SameValue(r.b, r.n1, r.n2, v1, v2) && SameFresh(r.b, r.n1, r.n2, h1, h2)
    ensures var o1 := Store(asReference, t1.context, t1.name, v1, h1);
            var o2 := Store(asReference, t2.context, t2.name, v2, h2);
            SameOutcome(r.b, r.n1, r.n2, o1, o2) && Kept(r.n1, h1, o1.heap) && Kept(r.n2, h2, o2.heap)
  {
    if t1.name.Some? {
      WriteSame(r.b, r.n1, r.n2, t1.context, t2.context, t1.name.value, v1, v2, h1, h2);
    }
  }

  lemma {:induction false} ArraySame(host: Host, names: set<string>, e: Expr, asReference: bool, create: Create,
                                     r: Runs, h1: Heap, h2: Heap)
    requires e.Array? && Ready(host, names, e, create, r, h1, h2)
    ensures Agrees(host, e, asReference, create, r, h1, h2)
    decreases e, 1
  {
    EvalAllSame(host, names, e.elements, r, h1, h2);
    var o1, o2 := EvalAll(host, e.elements, r.env1, h1), EvalAll(host, e.elements, r.env2, h2);
    if o1.Ok? {
      ArraySlotsSame(r.b, r.n1, r.n2, o1.value, o2.value);
      AllocSame(r.b, r.n1, r.n2, ArraySlots(o1.value), ArraySlots(o2.value), o1.heap, o2.heap);
    }
  }

  lemma {:induction false} ObjectSame(host: Host, names: set<string>, e: Expr, asReference: bool, create: Create,
                                      r: Runs, h1: Heap, h2: Heap)
    requires e.ObjectLiteral? && Ready(host, names, e, create, r, h1, h2)
    ensures Agrees(host, e, asReference, create, r, h1, h2)
    decreases e, 1
  {
    EvalPropertiesSame(host, names, e.properties, r, h1, h2, map[], map[]);
    var o1 := EvalProperties(host, e.properties, r.env1, h1, map[]);
    var o2 := EvalProperties(host, e.properties, r.env2, h2, map[]);
    if o1.Ok? { AllocSame(r.b, r.n1, r.n2, o1.value, o2.value, o1.heap, o2.heap); }
  }

  lemma {:induction false} EvalAllSame(host: Host, names: set<string>, es: seq<Expr>, r: Runs, h1: Heap, h2: Heap)
    requires Fit(host, names, r) && SameFresh(r.b, r.n1, r.n2, h1, h2)
    requires AllFiltersAmong(es, names) && InStep(AllConstant(es), AllEffectFree(es, r.calls), r, h1, h2)
    ensures AgreesAll(host, es, r, h1, h2)
    decreases es, 0
  {
    if |es| > 0 {
      EvalSame(host, names, es[0], false, No, r, h1, h2);
      var a1 := Eval(host, es[0], false, No, r.env1, h1);
      var a2 := Eval(host, es[0], false, No, r.env2, h2);
      if a1.Ok? {
        StillInStep(AllConstant(es), AllEffectFree(es, r.calls), r, h1, h2, a1.heap, a2.heap);
        EvalAllSame(host, names, es[1..], r, a1.heap, a2.heap);
      }
    }
  }

  lemma {:induction false} EvalPropertiesSame(host: Host, names: set<string>, ps: seq<Property>, r: Runs,
                                              h1: Heap, h2: Heap, slots1: Slots, slots2: Slots)
    requires Fit(host, names, r) && SameFresh(r.b, r.n1, r.n2, h1, h2) && SameSlots(r.b, r.n1, r.n2, slots1, slots2)
    requires PropertyFiltersAmong(ps, names)
    requires InStep(PropertiesConstant(ps), PropertiesEffectFree(ps, r.calls), r, h1, h2)
    ensures var o1 := EvalProperties(host, ps, r.env1, h1, slots1);
            var o2 := EvalProperties(host, ps, r.env2, h2, slots2);
            SameBuilt(r.b, r.n1, r.n2, o1, o2) && Kept(r.n1, h1, o1.heap) && Kept(r.n2, h2, o2.heap)
    decreases ps, 0
  {
    if |ps| > 0 {
      EvalKeySame(host, names, ps[0], r, h1, h2);
      var k1 := EvalKey(host, ps[0], r.env1, h1);
      var k2 := EvalKey(host, ps[0], r.env2, h2);
      if k1.Ok? {
        StillInStep(PropertiesConstant(ps), PropertiesEffectFree(ps, r.calls), r, h1, h2, k1.heap, k2.heap);
        assert (ps[0] decreases to ps[0].value);
        EvalSame(host, names, ps[0].value, false, No, r, k1.heap, k2.heap);
        var v1 := Eval(host, ps[0].value, false, No, r.env1, k1.heap);
        var v2 := Eval(host, ps[0].value, false, No, r.env2, k2.heap);
        if v1.Ok? {
          StillInStep(PropertiesConstant(ps), PropertiesEffectFree(ps, r.calls), r, k1.heap, k2.heap, v1.heap, v2.heap);
          EvalPropertiesSame(host, names, ps[1..], r, v1.heap, v2.heap,
                             slots1[k1.value := v1.value.value], slots2[k2.value := v2.value.value]);
        }
      }
    }
  }

  lemma {:induction false} EvalKeySame(host: Host, names: set<string>, p: Property, r: Runs, h1: Heap, h2: Heap)
    requires Fit(host, names, r) && SameFresh(r.b, r.n1, r.n2, h1, h2)
    requires KeyFiltersAmong(p, names) && InStep(KeyConstant(p), KeyEffectFree(p, r.calls), r, h1, h2)
    ensures var k1 := EvalKey(host, p, r.env1, h1);
            var k2 := EvalKey(host, p, r.env2, h2);
            && k1.Ok? == k2.Ok?
            && (k1.Ok? ==> k1.value == k2.value && SameFresh(r.b, r.n1, r.n2, k1.heap, k2.heap))
            && Kept(r.n1, h1, k1.heap) && Kept(r.n2, h2, k2.heap)
    decreases p, 0
  {
    if p.Keyed? {
      EvalSame(host, names, p.keyExpr, false, No, r, h1, h2);
      var o1 := Eval(host, p.keyExpr, false, No, r.env1, h1);
      var o2 := Eval(host, p.keyExpr, false, No, r.env2, h2);
      if o1.Ok? {
        StillInStep(KeyConstant(p), KeyEffectFree(p, r.calls), r, h1, h2, o1.heap, o2.heap);
        CoercedSame(host, r.b, r.n1, r.n2, o1.value.value, o2.value.value, o1.heap, o2.heap);
      }
    }
  }
}
