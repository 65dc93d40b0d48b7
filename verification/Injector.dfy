/**
 * `AbstractInjector.get`: a memoised depth-first search with an in-progress marker
 * (src/core/di/internal-injector.ts).
 */
module Injector {
  import opened Basics

  type Name = string

  /** A service value; `True` is the one the cache also uses as its in-progress marker. */
  datatype Value = True | Instance(id: int)

  /** A provider's annotated dependencies and its factory; None stands for a factory that throws. */
  datatype Provider = Provider(deps: seq<Name>, make: seq<Value> -> Option<Value>)

  type Providers = map<Name, Provider>

  /** The instance cache; `built` records which factories succeeded, in order. */
  datatype State = State(cache: map<Name, Value>, built: seq<Name>)

  datatype Error = Circular(name: Name) | Unknown(name: Name) | FactoryFailed(name: Name)

  datatype Result<+T> = Ok(value: T) | Err(error: Error)

  /** The providers whose service is neither cached nor in progress. */
  function Pending(ps: Providers, s: State): set<Name> { ps.Keys - s.cache.Keys }

  function Mark(ps: Providers, s: State, name: Name): (m: State)
    ensures m.cache == s.cache[name := True] && m.built == s.built
    ensures name in ps && name !in s.cache ==> Pending(ps, m) < Pending(ps, s)
  {
    var m := s.(cache := s.cache[name := True]);
    assert name in ps && name !in s.cache ==> name in Pending(ps, s) && Pending(ps, m) == Pending(ps, s) - {name};
    m
  }

  /** `get` */
  function Get(ps: Providers, s: State, name: Name): (r: (Result<Value>, State))
    ensures s.cache.Keys <= r.1.cache.Keys
    decreases Pending(ps, s), 1, 0
  {
    if name in s.cache then
      (if s.cache[name] == True then Err(Circular(name)) else Ok(s.cache[name]), s)
    else if name !in ps then (Err(Unknown(name)), s)
    else
      var (args, s1) := Resolve(ps, Mark(ps, s, name), ps[name].deps);
      if args.Err? then (Err(args.error), s1.(cache := s1.cache - {name})) else
      match ps[name].make(args.value)
      case None => (Err(FactoryFailed(name)), s1.(cache := s1.cache - {name}))
      case Some(v) => (Ok(v), State(s1.cache[name := v], s1.built + [name]))
  }

  /** `_injectionArgs` */
  function Resolve(ps: Providers, s: State, deps: seq<Name>): (r: (Result<seq<Value>>, State))
    ensures s.cache.Keys <= r.1.cache.Keys
    decreases Pending(ps, s), 2, |deps|
  {
    if |deps| == 0 then (Ok([]), s) else
    var (first, s1) := Get(ps, s, deps[0]);
    if first.Err? then (Err(first.error), s1) else
    var (rest, s2) := Resolve(ps, s1, deps[1..]);
    if rest.Err? then (Err(rest.error), s2) else (Ok([first.value] + rest.value), s2)
  }

  /** Evaluation without a cache, but for the values in `base`, to a bounded depth. */
  function Eval(ps: Providers, base: map<Name, Value>, name: Name, depth: nat): Option<Value>
    decreases depth, 1, 0
  {
    if name in base then Some(base[name])
    else if name !in ps || depth == 0 then None
    else
      match EvalAll(ps, base, ps[name].deps, depth - 1)
      case None => None
      case Some(args) => ps[name].make(args)
  }

  function EvalAll(ps: Providers, base: map<Name, Value>, deps: seq<Name>, depth: nat): Option<seq<Value>>
    decreases depth, 2, |deps|
  {
    if |deps| == 0 then Some([]) else
    match Eval(ps, base, deps[0], depth)
    case None => None
    case Some(v) =>
      match EvalAll(ps, base, deps[1..], depth)
      case None => None
      case Some(rest) => Some([v] + rest)
  }

  // ---- what a call does to the state

  ghost predicate NoMarker(s: State) { forall n | n in s.cache :: s.cache[n] != True }

  /** No factory produces the value that the cache uses as its marker. */
  ghost predicate PlainFactories(ps: Providers) {
    forall n, args | n in ps :: ps[n].make(args) != Some(True)
  }

  /** Old entries stay, new ones are finished values, and each of those was built once. */
  ghost predicate Extends(s: State, s': State) {
    && (forall n | n in s.cache :: n in s'.cache && s'.cache[n] == s.cache[n])
    && (forall n | n in s'.cache && n !in s.cache :: s'.cache[n] != True)
    && |s.built| <= |s'.built| && s'.built[..|s.built|] == s.built
    && NoDuplicates(s'.built[|s.built|..])
    && (forall n :: n in s'.built[|s.built|..] <==> n in s'.cache && n !in s.cache)
  }

  lemma ExtendsJoin(s: State, s1: State, s2: State)
    requires Extends(s, s1) && Extends(s1, s2)
    ensures Extends(s, s2)
  {
    var a := s1.built[|s.built|..];
    var b := s2.built[|s1.built|..];
    assert s2.built == s1.built + b && s1.built == s.built + a;
    assert s2.built[|s.built|..] == a + b;
    forall i, j | 0 <= i < j < |a + b| ensures (a + b)[i] != (a + b)[j] {
      if i < |a| && j >= |a| { assert a[i] in a && b[j - |a|] in b; }
    }
    assert forall n :: n in a + b <==> n in a || n in b;
  }

  lemma {:induction false} GetExtends(ps: Providers, s: State, name: Name)
    requires PlainFactories(ps)
    ensures var (r, s') := Get(ps, s, name);
            Extends(s, s') && (r.Ok? ==> name in s'.cache && s'.cache[name] == r.value && r.value != True)
    decreases Pending(ps, s), 1, 0
  {
    if name !in s.cache && name in ps {
      var marked := Mark(ps, s, name);
      ResolveExtends(ps, marked, ps[name].deps);
      var (args, s1) := Resolve(ps, marked, ps[name].deps);
      Unmark(s, name, s1);
      if args.Ok? && ps[name].make(args.value).Some? {
        Built(s, name, s1, ps[name].make(args.value).value);
      }
    }
  }

  lemma Unmark(s: State, name: Name, s1: State)
    requires name !in s.cache && Extends(State(s.cache[name := True], s.built), s1)
    ensures Extends(s, s1.(cache := s1.cache - {name}))
  {
    var new_ := s1.built[|s.built|..];
    forall n ensures n in new_ <==> n in s1.cache - {name} && n !in s.cache {
      assert n in new_ <==> n in s1.cache && n !in s.cache[name := True];
    }
  }

  lemma Built(s: State, name: Name, s1: State, v: Value)
    requires name !in s.cache && v != True && Extends(State(s.cache[name := True], s.built), s1)
    ensures Extends(s, State(s1.cache[name := v], s1.built + [name]))
  {
    var new_ := s1.built[|s.built|..];
    var s' := State(s1.cache[name := v], s1.built + [name]);
    assert forall n :: n in new_ <==> n in s1.cache && n !in s.cache[name := True];
    AppendName(s.built, s1.built, name);
    forall n ensures n in s'.built[|s.built|..] <==> n in s'.cache && n !in s.cache {
      assert n in new_ <==> n in s1.cache && n !in s.cache[name := True];
    }
  }

  lemma AppendName(before: seq<Name>, after: seq<Name>, name: Name)
    requires |before| <= |after| && after[..|before|] == before
    requires NoDuplicates(after[|before|..]) && name !in after[|before|..]
    ensures (after + [name])[..|before|] == before
    ensures NoDuplicates((after + [name])[|before|..])
    ensures forall n :: n in (after + [name])[|before|..] <==> n in after[|before|..] || n == name
  {
    var new_ := after[|before|..];
    assert (after + [name])[|before|..] == new_ + [name];
    forall i, j | 0 <= i < j < |new_ + [name]| ensures (new_ + [name])[i] != (new_ + [name])[j] {
      if j == |new_| { assert new_[i] in new_; }
    }
  }

  lemma {:induction false} ResolveExtends(ps: Providers, s: State, deps: seq<Name>)
    requires PlainFactories(ps)
    ensures Extends(s, Resolve(ps, s, deps).1)
    decreases Pending(ps, s), 2, |deps|
  {
    if |deps| > 0 {
      GetExtends(ps, s, deps[0]);
      var (first, s1) := Get(ps, s, deps[0]);
      if first.Ok? {
        ResolveExtends(ps, s1, deps[1..]);
        ExtendsJoin(s, s1, Resolve(ps, s1, deps[1..]).1);
      }
    }
  }

  // ---- what a call returns

  /** Every finished cache entry is what evaluation from `base` gives. */
  ghost predicate Consistent(ps: Providers, base: map<Name, Value>, s: State) {
    forall n | n in s.cache && s.cache[n] != True :: exists d: nat :: Eval(ps, base, n, d) == Some(s.cache[n])
  }

  lemma {:induction false} EvalMonotone(ps: Providers, base: map<Name, Value>, name: Name, d: nat, e: nat)
    requires d <= e && Eval(ps, base, name, d).Some?
    ensures Eval(ps, base, name, e) == Eval(ps, base, name, d)
    decreases d, 1, 0
  {
    if name !in base { EvalAllMonotone(ps, base, ps[name].deps, d - 1, e - 1); }
  }

  lemma {:induction false} EvalAllMonotone(ps: Providers, base: map<Name, Value>, deps: seq<Name>, d: nat, e: nat)
    requires d <= e && EvalAll(ps, base, deps, d).Some?
    ensures EvalAll(ps, base, deps, e) == EvalAll(ps, base, deps, d)
    decreases d, 2, |deps|
  {
    if |deps| > 0 {
      EvalMonotone(ps, base, deps[0], d, e);
      EvalAllMonotone(ps, base, deps[1..], d, e);
    }
  }

  /** Services in `base` are never in progress and never rebuilt. */
  ghost predicate Covers(base: map<Name, Value>, s: State) {
    forall n | n in base :: n in s.cache && s.cache[n] != True
  }

  lemma {:induction false} GetEvaluates(ps: Providers, base: map<Name, Value>, s: State, name: Name)
    requires PlainFactories(ps) && Consistent(ps, base, s) && Covers(base, s)
    ensures var (r, s') := Get(ps, s, name);
            && Consistent(ps, base, s') && Covers(base, s')
            && (r.Ok? ==> exists d: nat :: Eval(ps, base, name, d) == Some(r.value))
    decreases Pending(ps, s), 1, 0
  {
    GetExtends(ps, s, name);
    if name !in s.cache && name in ps {
      var marked := Mark(ps, s, name);
      ResolveEvaluates(ps, base, marked, ps[name].deps);
      ResolveExtends(ps, marked, ps[name].deps);
      var (args, s1) := Resolve(ps, marked, ps[name].deps);
      Forgotten(ps, base, s1, name);
      if args.Ok? && ps[name].make(args.value).Some? {
        var d: nat :| EvalAll(ps, base, ps[name].deps, d) == Some(args.value);
        assert Eval(ps, base, name, d + 1) == ps[name].make(args.value);
        Cached(ps, base, s1, name, ps[name].make(args.value).value, d + 1);
      }
    }
  }

  lemma Forgotten(ps: Providers, base: map<Name, Value>, s: State, name: Name)
    requires Consistent(ps, base, s) && Covers(base, s) && name !in base
    ensures Consistent(ps, base, s.(cache := s.cache - {name})) && Covers(base, s.(cache := s.cache - {name}))
  {
  }

  lemma Cached(ps: Providers, base: map<Name, Value>, s: State, name: Name, v: Value, d: nat)
    requires Consistent(ps, base, s) && Covers(base, s) && name !in base && Eval(ps, base, name, d) == Some(v)
    ensures var s' := State(s.cache[name := v], s.built + [name]); Consistent(ps, base, s') && Covers(base, s')
  {
  }

  lemma {:induction false} ResolveEvaluates(ps: Providers, base: map<Name, Value>, s: State, deps: seq<Name>)
    requires PlainFactories(ps) && Consistent(ps, base, s) && Covers(base, s)
    ensures var (r, s') := Resolve(ps, s, deps);
            && Consistent(ps, base, s') && Covers(base, s')
            && (r.Ok? ==> exists d: nat :: EvalAll(ps, base, deps, d) == Some(r.value))
    decreases Pending(ps, s), 2, |deps|
  {
    if |deps| == 0 {
      assert EvalAll(ps, base, deps, 0) == Some([]);
    } else {
      GetEvaluates(ps, base, s, deps[0]);
      var (first, s1) := Get(ps, s, deps[0]);
      if first.Ok? {
        ResolveEvaluates(ps, base, s1, deps[1..]);
        var (rest, s2) := Resolve(ps, s1, deps[1..]);
        if rest.Ok? {
          var d1: nat :| Eval(ps, base, deps[0], d1) == Some(first.value);
          var d2: nat :| EvalAll(ps, base, deps[1..], d2) == Some(rest.value);
          var d := if d1 < d2 then d2 else d1;
          EvalMonotone(ps, base, deps[0], d1, d);
          EvalAllMonotone(ps, base, deps[1..], d2, d);
          assert EvalAll(ps, base, deps, d) == Some([first.value] + rest.value);
        }
      }
    }
  }

  // ---- when a call succeeds

  /** A chain of dependencies out of services that are not cached at the start. */
  ghost predicate Chain(ps: Providers, s: State, p: seq<Name>) {
    |p| >= 1 && forall i | 0 <= i < |p| - 1 ::
      p[i] !in s.cache && p[i] in ps && p[i + 1] in ps[p[i]].deps
  }

  /** A service that is neither cached nor provided can be reached. */
  ghost predicate MissingFrom(ps: Providers, s: State, name: Name) {
    exists p :: Chain(ps, s, p) && p[0] == name && p[|p| - 1] !in s.cache && p[|p| - 1] !in ps
  }

  ghost predicate Loops(p: seq<Name>) {
    exists i :: 0 <= i < |p| - 1 && p[i] == p[|p| - 1]
  }

  /** A dependency cycle can be reached. */
  ghost predicate CycleFrom(ps: Providers, s: State, name: Name) {
    exists p :: Chain(ps, s, p) && p[0] == name && Loops(p)
  }

  /** A factory that fails on what the service's dependencies evaluate to. */
  ghost predicate FailsAt(ps: Providers, base: map<Name, Value>, n: Name) {
    n !in base && n in ps
    && exists d: nat :: EvalAll(ps, base, ps[n].deps, d).Some?
        && ps[n].make(EvalAll(ps, base, ps[n].deps, d).value).None?
  }

  /** Such a service can be reached. */
  ghost predicate FailureFrom(ps: Providers, s: State, name: Name) {
    exists p :: Chain(ps, s, p) && p[0] == name && FailsAt(ps, s.cache, p[|p| - 1])
  }

  /** Why a call failed: something missing, a cycle, a factory, or a chain into a service already in progress. */
  ghost predicate Explains(ps: Providers, base: map<Name, Value>, s: State, p: seq<Name>) {
    && Chain(ps, s, p)
    && var last := p[|p| - 1];
       || (last !in s.cache && last !in ps)
       || Loops(p)
       || FailsAt(ps, base, last)
       || (last in s.cache && s.cache[last] == True)
  }

  lemma ChainExtends(ps: Providers, s: State, name: Name, dep: Name, p: seq<Name>, inner: State)
    requires name !in s.cache && name in ps && dep in ps[name].deps
    requires s.cache.Keys <= inner.cache.Keys && Chain(ps, inner, p) && p[0] == dep
    ensures Chain(ps, s, [name] + p)
  {
    var q := [name] + p;
    forall i | 0 <= i < |q| - 1 ensures q[i] !in s.cache && q[i] in ps && q[i + 1] in ps[q[i]].deps {
      if i > 0 { assert p[i - 1] !in inner.cache; }
    }
  }

  /** A failed call leaves a chain of dependencies that explains it. */
  lemma {:induction false} GetFailure(ps: Providers, base: map<Name, Value>, s: State, name: Name)
    returns (p: seq<Name>)
    requires PlainFactories(ps) && Consistent(ps, base, s) && Covers(base, s) && Get(ps, s, name).0.Err?
    ensures Explains(ps, base, s, p) && p[0] == name
    decreases Pending(ps, s), 1, 0
  {
    p := [name];
    if name !in s.cache && name in ps {
      var marked := Mark(ps, s, name);
      var args := Resolve(ps, marked, ps[name].deps).0;
      if args.Err? {
        var i, tail, inner := ResolveFailure(ps, base, marked, ps[name].deps);
        p := [name] + tail;
        ChainExtends(ps, s, name, ps[name].deps[i], tail, inner);
        ExplainsUp(ps, base, s, name, tail, inner);
      } else {
        ResolveEvaluates(ps, base, marked, ps[name].deps);
        assert FailsAt(ps, base, name);
      }
    }
  }

  lemma ExplainsUp(ps: Providers, base: map<Name, Value>, s: State, name: Name, tail: seq<Name>, inner: State)
    requires name !in s.cache && name in ps && Explains(ps, base, inner, tail) && Chain(ps, s, [name] + tail)
    requires Extends(State(s.cache[name := True], s.built), inner)
    ensures Explains(ps, base, s, [name] + tail)
  {
    var p := [name] + tail;
    var last := p[|p| - 1];
    assert last == tail[|tail| - 1];
    if Loops(tail) {
      var i :| 0 <= i < |tail| - 1 && tail[i] == tail[|tail| - 1];
      assert p[i + 1] == last;
    } else if last == name {
      assert p[0] == last;
    }
  }

  lemma {:induction false} ResolveFailure(ps: Providers, base: map<Name, Value>, s: State, deps: seq<Name>)
    returns (i: nat, p: seq<Name>, inner: State)
    requires PlainFactories(ps) && Consistent(ps, base, s) && Covers(base, s) && Resolve(ps, s, deps).0.Err?
    ensures i < |deps| && Extends(s, inner) && Explains(ps, base, inner, p) && p[0] == deps[i]
    decreases Pending(ps, s), 2, |deps|
  {
    GetExtends(ps, s, deps[0]);
    var (first, s1) := Get(ps, s, deps[0]);
    if first.Err? {
      p := GetFailure(ps, base, s, deps[0]);
      i, inner := 0, s;
    } else {
      GetEvaluates(ps, base, s, deps[0]);
      var j, q, deeper := ResolveFailure(ps, base, s1, deps[1..]);
      ExtendsJoin(s, s1, deeper);
      i, p, inner := j + 1, q, deeper;
    }
  }

  /** The least depth at which an evaluation succeeds goes down along every dependency. */
  lemma {:induction false} EvalAllMember(ps: Providers, base: map<Name, Value>, deps: seq<Name>, d: nat, dep: Name)
    requires EvalAll(ps, base, deps, d).Some? && dep in deps
    ensures Eval(ps, base, dep, d).Some?
    decreases |deps|
  {
    if dep != deps[0] { EvalAllMember(ps, base, deps[1..], d, dep); }
  }

  ghost function Depth(ps: Providers, base: map<Name, Value>, name: Name, d: nat): (m: nat)
    requires Eval(ps, base, name, d).Some?
    ensures m <= d && Eval(ps, base, name, m).Some?
    ensures forall k: nat | k < m :: Eval(ps, base, name, k).None?
    decreases d
  {
    if d == 0 || Eval(ps, base, name, d - 1).None? then
      assert forall k: nat | k < d :: Eval(ps, base, name, k).None? by {
        forall k: nat | k < d ensures Eval(ps, base, name, k).None? {
          if Eval(ps, base, name, k).Some? { EvalMonotone(ps, base, name, k, d - 1); }
        }
      }
      d
    else Depth(ps, base, name, d - 1)
  }

  lemma StepDown(ps: Providers, base: map<Name, Value>, name: Name, d: nat, dep: Name)
    requires name !in base && Eval(ps, base, name, d).Some? && name in ps && dep in ps[name].deps
    ensures d > 0 && Eval(ps, base, dep, d - 1).Some?
  {
    EvalAllMember(ps, base, ps[name].deps, d - 1, dep);
  }

  /** Along a chain from an evaluable service the depth has gone down by at least the distance. */
  lemma {:induction false} ChainDepth(ps: Providers, s: State, p: seq<Name>, d: nat, i: nat)
    requires Chain(ps, s, p) && Eval(ps, s.cache, p[0], d).Some? && i < |p|
    ensures i <= d && Eval(ps, s.cache, p[i], d - i).Some?
    decreases i
  {
    if i > 0 {
      ChainDepth(ps, s, p, d, i - 1);
      StepDown(ps, s.cache, p[i - 1], d - (i - 1), p[i]);
    }
  }

  lemma EvaluableHasNoLoop(ps: Providers, s: State, p: seq<Name>, d: nat)
    requires Chain(ps, s, p) && Eval(ps, s.cache, p[0], d).Some?
    ensures !Loops(p)
  {
    if Loops(p) {
      var i :| 0 <= i < |p| - 1 && p[i] == p[|p| - 1];
      ChainDepth(ps, s, p, d, i);
      var m := Depth(ps, s.cache, p[i], d - i);
      var q := p[i..];
      assert Chain(ps, s, q) by {
        forall j | 0 <= j < |q| - 1 ensures q[j] !in s.cache && q[j] in ps && q[j + 1] in ps[q[j]].deps {
          assert p[i + j] !in s.cache;
        }
      }
      assert q[|q| - 1] == p[i];
      ChainDepth(ps, s, q, m, |q| - 1);
    }
  }

  /** What evaluates does not fail in its factory. */
  lemma EvaluableDoesNotFail(ps: Providers, base: map<Name, Value>, n: Name, d: nat)
    requires Eval(ps, base, n, d).Some?
    ensures !FailsAt(ps, base, n)
  {
    if FailsAt(ps, base, n) {
      var e: nat :| EvalAll(ps, base, ps[n].deps, e).Some? && ps[n].make(EvalAll(ps, base, ps[n].deps, e).value).None?;
      if e < d - 1 {
        EvalAllMonotone(ps, base, ps[n].deps, e, d - 1);
      } else {
        EvalAllMonotone(ps, base, ps[n].deps, d - 1, e);
      }
    }
  }

  lemma OwnCacheConsistent(ps: Providers, s: State)
    requires NoMarker(s)
    ensures Consistent(ps, s.cache, s) && Covers(s.cache, s)
  {
    forall n | n in s.cache ensures Eval(ps, s.cache, n, 0) == Some(s.cache[n]) { }
  }

  /**
   * Main result: from a cache with nothing in progress `get` succeeds iff of the uncached services it can reach each
   * is provided, none depends on itself, and no factory fails on what its dependencies evaluate to.
   */
  lemma GetSucceedsIff(ps: Providers, s: State, name: Name)
    requires PlainFactories(ps) && NoMarker(s)
    ensures Get(ps, s, name).0.Ok?
            <==> !MissingFrom(ps, s, name) && !CycleFrom(ps, s, name) && !FailureFrom(ps, s, name)
  {
    OwnCacheConsistent(ps, s);
    if Get(ps, s, name).0.Ok? {
      GetEvaluates(ps, s.cache, s, name);
      var d: nat :| Eval(ps, s.cache, name, d).Some?;
      forall p | Chain(ps, s, p) && p[0] == name
        ensures !Loops(p) && (p[|p| - 1] in s.cache || p[|p| - 1] in ps) && !FailsAt(ps, s.cache, p[|p| - 1])
      {
        EvaluableHasNoLoop(ps, s, p, d);
        ChainDepth(ps, s, p, d, |p| - 1);
        EvaluableDoesNotFail(ps, s.cache, p[|p| - 1], d - (|p| - 1));
      }
    } else {
      var p := GetFailure(ps, s.cache, s, name);
    }
  }

  /**
   * Main result: over one call the cache only gains finished values, a failure leaves no marker
   * behind, nothing is built twice, and what comes back is what evaluation without a cache gives.
   */
  lemma GetIsMemoisedEvaluation(ps: Providers, constants: map<Name, Value>, s: State, name: Name)
    requires PlainFactories(ps) && NoMarker(s) && Covers(constants, s) && Consistent(ps, constants, s)
    ensures var (r, s') := Get(ps, s, name);
            && NoMarker(s') && Covers(constants, s') && Consistent(ps, constants, s') && Extends(s, s')
            && (r.Ok? ==> exists d: nat :: Eval(ps, constants, name, d) == Some(r.value))
  {
    GetExtends(ps, s, name);
    GetEvaluates(ps, constants, s, name);
  }

  function GetAll(ps: Providers, s: State, names: seq<Name>): State
    decreases |names|
  {
    if |names| == 0 then s else GetAll(ps, Get(ps, s, names[0]).1, names[1..])
  }

  /** Main result, over the injector's life: no factory succeeds twice, whatever is asked for. */
  lemma {:induction false} BuiltOnce(ps: Providers, constants: map<Name, Value>, names: seq<Name>)
    requires PlainFactories(ps) && (forall n | n in constants :: constants[n] != True)
    ensures var s := GetAll(ps, State(constants, []), names);
            NoDuplicates(s.built) && NoMarker(s) && Consistent(ps, constants, s)
            && forall n | n in s.built :: n !in constants
  {
    var start := State(constants, []);
    forall n | n in constants ensures Eval(ps, constants, n, 0) == Some(constants[n]) { }
    GetAllExtends(ps, constants, start, names);
    var s := GetAll(ps, start, names);
    assert s.built[0..] == s.built;
  }

  lemma {:induction false} GetAllExtends(ps: Providers, constants: map<Name, Value>, s: State, names: seq<Name>)
    requires PlainFactories(ps) && NoMarker(s) && Covers(constants, s) && Consistent(ps, constants, s)
    ensures var s' := GetAll(ps, s, names);
            Extends(s, s') && NoMarker(s') && Consistent(ps, constants, s')
    decreases |names|
  {
    if |names| > 0 {
      GetIsMemoisedEvaluation(ps, constants, s, names[0]);
      GetAllExtends(ps, constants, Get(ps, s, names[0]).1, names[1..]);
      ExtendsJoin(s, Get(ps, s, names[0]).1, GetAll(ps, s, names));
    }
  }

  /**
   * Whatever the factories return: what is cached, a registered constant for one, is handed out iff it is not the
   * marker itself, and so is a service that was handed out before.
   */
  lemma HandedOutAgainIff(ps: Providers, s: State, name: Name)
    ensures name in s.cache ==> (Get(ps, s, name).0 == Ok(s.cache[name]) <==> s.cache[name] != True)
    ensures Get(ps, s, name).0.Ok? ==>
              var (r, s') := Get(ps, s, name);
              && (Get(ps, s', name) == (r, s') <==> r.value != True)
              && (Get(ps, s', name).0.Ok? <==> r.value != True)
  {
    var (r, s') := Get(ps, s, name);
    if r.Ok? {
      if name in s.cache {
        assert s' == s && r.value == s.cache[name] && s.cache[name] != True;
      } else {
        assert name in s'.cache && s'.cache[name] == r.value;
      }
    }
  }

  // ---- from left to right

  /** Dependencies are resolved as the first ones and then the others; the first failure ends it. */
  lemma {:induction false} ResolveInOrder(ps: Providers, s: State, a: seq<Name>, b: seq<Name>)
    ensures var first := Resolve(ps, s, a);
            var whole := Resolve(ps, s, a + b);
            if first.0.Err? then whole == first
            else
              var second := Resolve(ps, first.1, b);
              && whole.1 == second.1
              && (second.0.Err? ==> whole.0 == second.0)
              && (second.0.Ok? ==> whole.0 == Ok(first.0.value + second.0.value))
    decreases |a|
  {
    if |a| == 0 {
      assert a + b == b;
      var second := Resolve(ps, s, b);
      if second.0.Ok? { assert [] + second.0.value == second.0.value; }
    } else {
      assert (a + b)[1..] == a[1..] + b;
      var (head, s1) := Get(ps, s, a[0]);
      if head.Ok? {
        ResolveInOrder(ps, s1, a[1..], b);
        var first := Resolve(ps, s1, a[1..]);
        if first.0.Ok? && Resolve(ps, first.1, b).0.Ok? {
          Regroup([head.value], first.0.value, Resolve(ps, first.1, b).0.value);
        }
      }
    }
  }

  lemma Regroup(a: seq<Value>, b: seq<Value>, c: seq<Value>)
    ensures (a + b) + c == a + (b + c)
  {
  }

  /** Main result: a factory is handed the service of each dependency, in the order in which they are declared. */
  lemma BuiltFromDependencies(ps: Providers, s: State, name: Name)
    requires PlainFactories(ps) && name !in s.cache && Get(ps, s, name).0.Ok?
    ensures var (r, s') := Get(ps, s, name);
            && name in ps && (forall d | d in ps[name].deps :: d in s'.cache)
            && ps[name].make(Services(s', ps[name].deps)) == Some(r.value)
            && |s'.built| > |s.built| && s'.built[|s'.built| - 1] == name
  {
    var deps, marked := ps[name].deps, Mark(ps, s, name);
    var (args, s1) := Resolve(ps, marked, deps);
    var s' := Get(ps, s, name).1;
    GetExtends(ps, s, name);
    ResolveExtends(ps, marked, deps);
    ArgumentsAreServices(ps, marked, deps);
    forall i | 0 <= i < |deps| ensures deps[i] in s'.cache && s'.cache[deps[i]] == args.value[i] {
      assert s1.cache[deps[i]] == args.value[i] && args.value[i] != True;
    }
    assert Services(s', deps) == args.value;
  }

  /** What the cache holds for each of the names. */
  function Services(s: State, names: seq<Name>): (vs: seq<Value>)
    ensures |vs| == |names|
    ensures forall i | 0 <= i < |names| && names[i] in s.cache :: vs[i] == s.cache[names[i]]
  {
    seq(|names|, i requires 0 <= i < |names| => if names[i] in s.cache then s.cache[names[i]] else True)
  }

  lemma {:induction false} ArgumentsAreServices(ps: Providers, s: State, deps: seq<Name>)
    requires PlainFactories(ps) && Resolve(ps, s, deps).0.Ok?
    ensures var (args, s') := Resolve(ps, s, deps);
            && |args.value| == |deps|
            && forall i | 0 <= i < |deps| ::
                 deps[i] in s'.cache && s'.cache[deps[i]] == args.value[i] && args.value[i] != True
    decreases |deps|
  {
    if |deps| > 0 {
      var (head, s1) := Get(ps, s, deps[0]);
      GetExtends(ps, s, deps[0]);
      ResolveExtends(ps, s1, deps[1..]);
      ArgumentsAreServices(ps, s1, deps[1..]);
      var (rest, s2) := Resolve(ps, s1, deps[1..]);
      forall i | 0 <= i < |deps| ensures deps[i] in s2.cache && s2.cache[deps[i]] == ([head.value] + rest.value)[i]
        && ([head.value] + rest.value)[i] != True
      {
        if i > 0 { assert deps[i] == deps[1..][i - 1]; }
      }
    }
  }

  // ---- what an error says

  /** Circular names a service in progress, before the call or within it; the others what the name says. */
  ghost predicate Tells(ps: Providers, s: State, e: Error) {
    match e
    case Circular(n) => if n in s.cache then s.cache[n] == True else n in ps
    case Unknown(n) => n !in s.cache && n !in ps
    case FactoryFailed(n) => n !in s.cache && n in ps
  }

  lemma TellsBefore(ps: Providers, s: State, s': State, e: Error)
    requires Extends(s, s') && Tells(ps, s', e)
    requires e.Circular? && e.name in s'.cache ==> e.name in s.cache
    ensures Tells(ps, s, e)
  {
  }

  /** Main result: the error of a call is about the service it names. */
  lemma {:induction false} ErrorsTell(ps: Providers, s: State, name: Name)
    requires PlainFactories(ps) && Get(ps, s, name).0.Err?
    ensures Tells(ps, s, Get(ps, s, name).0.error)
    decreases Pending(ps, s), 1, 0
  {
    if name !in s.cache && name in ps {
      var marked := Mark(ps, s, name);
      if Resolve(ps, marked, ps[name].deps).0.Err? { ResolveErrorsTell(ps, marked, ps[name].deps); }
    }
  }

  lemma {:induction false} ResolveErrorsTell(ps: Providers, s: State, deps: seq<Name>)
    requires PlainFactories(ps) && Resolve(ps, s, deps).0.Err?
    ensures Tells(ps, s, Resolve(ps, s, deps).0.error)
    decreases Pending(ps, s), 2, |deps|
  {
    var (head, s1) := Get(ps, s, deps[0]);
    GetExtends(ps, s, deps[0]);
    if head.Err? {
      ErrorsTell(ps, s, deps[0]);
    } else {
      ResolveErrorsTell(ps, s1, deps[1..]);
      TellsBefore(ps, s, s1, Resolve(ps, s1, deps[1..]).0.error);
    }
  }
}
