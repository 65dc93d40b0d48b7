/** `loadModules`: a depth-first load of the `requires` graph of named modules (src/core/di/injector.ts). */
module ModuleLoader {
  import opened Basics

  type Name = string
  type Command = nat
  type RunBlock = nat

  /** `commands` are the module's invoke queue followed by its config blocks. */
  datatype Module = Module(requires_: seq<Name>, commands: seq<Command>, runBlocks: seq<RunBlock>)

  type Modules = map<Name, Module>

  /**
   * `loaded` is the set of keys of `loadedModules`; the rest is history: the commands that have run, and the modules
   * whose queue has been started and those whose queue has run to its end.
   */
  datatype State = State(loaded: set<Name>, executed: seq<Command>, started: seq<Name>, finished: seq<Name>)

  /** What the modules loaded by one call put out, or the exception that ended it. */
  datatype Outcome = Loaded(runBlocks: seq<RunBlock>) | Failed

  function Pending(ms: Modules, s: State): set<Name> { ms.Keys - s.loaded }

  function MarkLoaded(ms: Modules, s: State, name: Name): (m: State)
    ensures m.loaded == s.loaded + {name} && m == s.(loaded := s.loaded + {name})
    ensures name in ms && name !in s.loaded ==> Pending(ms, m) < Pending(ms, s)
  {
    var m := s.(loaded := s.loaded + {name});
    assert name in ms && name !in s.loaded ==> name in Pending(ms, s) && Pending(ms, m) == Pending(ms, s) - {name};
    m
  }

  /** The commands of one module up to the first that throws. */
  function Execute(fails: set<Command>, commands: seq<Command>): (seq<Command>, bool)
    decreases |commands|
  {
    if |commands| == 0 then ([], true)
    else if commands[0] in fails then ([], false)
    else
      var (rest, ok) := Execute(fails, commands[1..]);
      ([commands[0]] + rest, ok)
  }

  /** `loadModules` */
  function LoadAll(ms: Modules, fails: set<Command>, s: State, names: seq<Name>): (r: (Outcome, State))
    ensures s.loaded <= r.1.loaded
    decreases Pending(ms, s), 1, |names|
  {
    if |names| == 0 then (Loaded([]), s) else
    var (first, s1) := Load(ms, fails, s, names[0]);
    if first.Failed? then (Failed, s1) else
    var (rest, s2) := LoadAll(ms, fails, s1, names[1..]);
    if rest.Failed? then (Failed, s2) else (Loaded(first.runBlocks + rest.runBlocks), s2)
  }

  /** One module: marked before anything else, then its requirements, then its own commands. */
  function Load(ms: Modules, fails: set<Command>, s: State, name: Name): (r: (Outcome, State))
    ensures s.loaded <= r.1.loaded
    decreases Pending(ms, s), 0, 0
  {
    if name in s.loaded then (Loaded([]), s) else
    var marked := MarkLoaded(ms, s, name);
    if name !in ms then (Failed, marked) else
    var m := ms[name];
    var (required, s1) := LoadAll(ms, fails, marked, m.requires_);
    if required.Failed? then (Failed, s1) else
    var (executed, ok) := Execute(fails, m.commands);
    var s2 := s1.(executed := s1.executed + executed, started := s1.started + [name]);
    if !ok then (Failed, s2)
    else (Loaded(required.runBlocks + m.runBlocks), s2.(finished := s2.finished + [name]))
  }

  // ---- what a successful load does

  function Commands(ms: Modules, names: seq<Name>): seq<Command>
    requires forall n | n in names :: n in ms
    decreases |names|
  {
    if |names| == 0 then [] else Commands(ms, names[..|names| - 1]) + ms[names[|names| - 1]].commands
  }

  function RunBlocks(ms: Modules, names: seq<Name>): seq<RunBlock>
    requires forall n | n in names :: n in ms
    decreases |names|
  {
    if |names| == 0 then [] else RunBlocks(ms, names[..|names| - 1]) + ms[names[|names| - 1]].runBlocks
  }

  lemma {:induction false} Concatenated(ms: Modules, a: seq<Name>, b: seq<Name>)
    requires (forall n | n in a :: n in ms) && (forall n | n in b :: n in ms)
    ensures forall n | n in a + b :: n in ms
    ensures Commands(ms, a + b) == Commands(ms, a) + Commands(ms, b)
    ensures RunBlocks(ms, a + b) == RunBlocks(ms, a) + RunBlocks(ms, b)
    decreases |b|
  {
    if |b| == 0 {
      assert a + b == a;
    } else {
      var init := b[..|b| - 1];
      assert (a + b)[..|a + b| - 1] == a + init;
      Concatenated(ms, a, init);
      Regroup(Commands(ms, a), Commands(ms, init), ms[b[|b| - 1]].commands);
      Regroup(RunBlocks(ms, a), RunBlocks(ms, init), ms[b[|b| - 1]].runBlocks);
    }
  }

  lemma Regroup<T>(a: seq<T>, b: seq<T>, c: seq<T>)
    ensures (a + b) + c == a + (b + c)
  {
  }

  /** The modules in `names`, each once and in that order, are newly loaded and put out what they hold. */
  ghost predicate Loads(ms: Modules, s: State, s': State, names: seq<Name>, runBlocks: seq<RunBlock>) {
    && NoDuplicates(names) && (forall n | n in names :: n in ms && n !in s.loaded)
    && s'.loaded == s.loaded + (set n | n in names)
    && s'.finished == s.finished + names && s'.started == s.started + names
    && s'.executed == s.executed + Commands(ms, names)
    && runBlocks == RunBlocks(ms, names)
  }

  /** Each requirement was loaded before, or is loaded along with the module. */
  ghost predicate RequirementsMet(ms: Modules, loaded: set<Name>, names: seq<Name>) {
    forall n, r | n in names && n in ms && r in ms[n].requires_ :: r in loaded || r in names
  }

  function Newly(s: State, s': State): seq<Name> {
    if |s.finished| <= |s'.finished| then s'.finished[|s.finished|..] else []
  }

  lemma LoadsJoin(ms: Modules, s: State, s1: State, s2: State, a: seq<Name>, b: seq<Name>, ra: seq<RunBlock>,
      rb: seq<RunBlock>)
    requires Loads(ms, s, s1, a, ra) && Loads(ms, s1, s2, b, rb)
    ensures Loads(ms, s, s2, a + b, ra + rb)
  {
    NamesJoin(a, b);
    forall n | n in a + b ensures n in ms && n !in s.loaded { assert n in a || n in b; }
    Concatenated(ms, a, b);
    Regroup(s.executed, Commands(ms, a), Commands(ms, b));
    Regroup(s.finished, a, b);
    Regroup(s.started, a, b);
  }

  lemma NamesJoin(a: seq<Name>, b: seq<Name>)
    requires NoDuplicates(a) && NoDuplicates(b) && forall n | n in b :: n !in a
    ensures NoDuplicates(a + b) && (set n | n in a + b) == (set n | n in a) + (set n | n in b)
  {
    forall i, j | 0 <= i < j < |a + b| ensures (a + b)[i] != (a + b)[j] {
      if i < |a| && j >= |a| { assert a[i] in a && b[j - |a|] in b; }
    }
  }

  lemma ExecuteAll(fails: set<Command>, commands: seq<Command>)
    ensures Execute(fails, commands).1 ==> Execute(fails, commands).0 == commands
    ensures Execute(fails, commands).1 <==> forall c | c in commands :: c !in fails
    decreases |commands|
  {
    if |commands| > 0 {
      ExecuteAll(fails, commands[1..]);
      assert commands == [commands[0]] + commands[1..];
    }
  }

  lemma LoadsLast(ms: Modules, s: State, s1: State, name: Name, names: seq<Name>, rb: seq<RunBlock>)
    requires name in ms && name !in s.loaded
    requires Loads(ms, MarkLoaded(ms, s, name), s1, names, rb)
    ensures Loads(ms, s, State(s1.loaded, s1.executed + ms[name].commands, s1.started + [name], s1.finished + [name]),
                  names + [name], rb + ms[name].runBlocks)
  {
    assert name !in names;
    NamesJoin(names, [name]);
    forall n | n in names + [name] ensures n in ms && n !in s.loaded { assert n in names || n == name; }
    OneMore(ms, names, name);
    Regroup(s.executed, Commands(ms, names), ms[name].commands);
    Regroup(s.started, names, [name]);
    Regroup(s.finished, names, [name]);
  }

  lemma OneMore(ms: Modules, names: seq<Name>, name: Name)
    requires name in ms && forall n | n in names :: n in ms
    ensures forall n | n in names + [name] :: n in ms
    ensures Commands(ms, names + [name]) == Commands(ms, names) + ms[name].commands
    ensures RunBlocks(ms, names + [name]) == RunBlocks(ms, names) + ms[name].runBlocks
  {
    assert (names + [name])[..|names|] == names;
  }

  lemma RequirementsLast(ms: Modules, loaded: set<Name>, name: Name, names: seq<Name>)
    requires RequirementsMet(ms, loaded + {name}, names)
    requires name in ms ==> forall r | r in ms[name].requires_ :: r in loaded + {name} || r in names
    ensures RequirementsMet(ms, loaded, names + [name])
  {
  }

  lemma {:induction false} LoadExact(ms: Modules, fails: set<Command>, s: State, name: Name)
    requires Load(ms, fails, s, name).0.Loaded?
    ensures var (o, s') := Load(ms, fails, s, name);
            Loads(ms, s, s', Newly(s, s'), o.runBlocks) && RequirementsMet(ms, s.loaded, Newly(s, s'))
            && name in s'.loaded
    decreases Pending(ms, s), 0, 0
  {
    if name !in s.loaded {
      var marked := MarkLoaded(ms, s, name);
      var m := ms[name];
      var (required, s1) := LoadAll(ms, fails, marked, m.requires_);
      LoadAllExact(ms, fails, marked, m.requires_);
      var names := Newly(marked, s1);
      LoadUnfolds(ms, fails, s, name);
      LoadsLast(ms, s, s1, name, names, required.runBlocks);
      RequirementsLast(ms, s.loaded, name, names);
    }
  }

  /** A successful load of a new module, in terms of that of its requirements. */
  lemma LoadUnfolds(ms: Modules, fails: set<Command>, s: State, name: Name)
    requires name !in s.loaded && Load(ms, fails, s, name).0.Loaded?
    requires name in ms ==> LoadAll(ms, fails, MarkLoaded(ms, s, name), ms[name].requires_).1.finished
                            == s.finished + Newly(s, LoadAll(ms, fails, MarkLoaded(ms, s, name), ms[name].requires_).1)
    ensures name in ms
    ensures var (required, s1) := LoadAll(ms, fails, MarkLoaded(ms, s, name), ms[name].requires_);
            && required.Loaded?
            && Load(ms, fails, s, name)
               == (Loaded(required.runBlocks + ms[name].runBlocks),
                   State(s1.loaded, s1.executed + ms[name].commands, s1.started + [name], s1.finished + [name]))
            && Newly(s, Load(ms, fails, s, name).1) == Newly(s, s1) + [name]
  {
    ExecuteAll(fails, ms[name].commands);
  }

  lemma {:induction false} LoadAllExact(ms: Modules, fails: set<Command>, s: State, names: seq<Name>)
    requires LoadAll(ms, fails, s, names).0.Loaded?
    ensures var (o, s') := LoadAll(ms, fails, s, names);
            Loads(ms, s, s', Newly(s, s'), o.runBlocks) && RequirementsMet(ms, s.loaded, Newly(s, s'))
            && forall n | n in names :: n in s'.loaded
    decreases Pending(ms, s), 1, |names|
  {
    if |names| > 0 {
      var (first, s1) := Load(ms, fails, s, names[0]);
      var (rest, s2) := LoadAll(ms, fails, s1, names[1..]);
      LoadExact(ms, fails, s, names[0]);
      LoadAllExact(ms, fails, s1, names[1..]);
      var a := Newly(s, s1);
      var b := Newly(s1, s2);
      LoadsJoin(ms, s, s1, s2, a, b, first.runBlocks, rest.runBlocks);
      assert Newly(s, s2) == a + b;
    }
  }

  // ---- which modules, and in which order

  ghost predicate ClosedUnderRequires(ms: Modules, loaded: set<Name>, bound: set<Name>) {
    forall n, r | n in bound && n in ms && n !in loaded && r in ms[n].requires_ && r !in loaded :: r in bound
  }

  lemma {:induction false} LoadWithin(ms: Modules, fails: set<Command>, s: State, name: Name, bound: set<Name>)
    requires Load(ms, fails, s, name).0.Loaded?
    requires ClosedUnderRequires(ms, s.loaded, bound) && (name in bound || name in s.loaded)
    ensures forall n | n in Newly(s, Load(ms, fails, s, name).1) :: n in bound
    decreases Pending(ms, s), 0, 0
  {
    if name !in s.loaded {
      var marked := MarkLoaded(ms, s, name);
      LoadAllWithin(ms, fails, marked, ms[name].requires_, bound);
      LoadAllExact(ms, fails, marked, ms[name].requires_);
      var s1 := LoadAll(ms, fails, marked, ms[name].requires_).1;
      assert Newly(s, Load(ms, fails, s, name).1) == Newly(marked, s1) + [name];
    }
  }

  lemma {:induction false} LoadAllWithin(ms: Modules, fails: set<Command>, s: State, names: seq<Name>, bound: set<Name>)
    requires LoadAll(ms, fails, s, names).0.Loaded?
    requires ClosedUnderRequires(ms, s.loaded, bound) && (forall n | n in names :: n in bound || n in s.loaded)
    ensures forall n | n in Newly(s, LoadAll(ms, fails, s, names).1) :: n in bound
    decreases Pending(ms, s), 1, |names|
  {
    if |names| > 0 {
      var s1 := Load(ms, fails, s, names[0]).1;
      LoadAllUnfolds(ms, fails, s, names);
      LoadWithin(ms, fails, s, names[0], bound);
      LoadAllWithin(ms, fails, s1, names[1..], bound);
    }
  }

  /** Some measure goes down along every requirement: the graph has no cycle. */
  ghost predicate Ranked(ms: Modules, rank: Name -> nat) {
    forall n, r | n in ms && r in ms[n].requires_ :: rank(r) < rank(n)
  }

  ghost predicate RequirementsFirst(ms: Modules, loaded: set<Name>, names: seq<Name>) {
    forall i, r | 0 <= i < |names| && names[i] in ms && r in ms[names[i]].requires_ :: r in loaded || r in names[..i]
  }

  lemma RequirementsFirstJoin(ms: Modules, s: State, s1: State, a: seq<Name>, b: seq<Name>)
    requires s1.loaded == s.loaded + (set n | n in a)
    requires RequirementsFirst(ms, s.loaded, a) && RequirementsFirst(ms, s1.loaded, b)
    ensures RequirementsFirst(ms, s.loaded, a + b)
  {
    forall i, r | 0 <= i < |a + b| && (a + b)[i] in ms && r in ms[(a + b)[i]].requires_
      ensures r in s.loaded || r in (a + b)[..i]
    {
      if i < |a| {
        assert (a + b)[..i] == a[..i];
      } else {
        assert (a + b)[..i] == a + b[..i - |a|];
        assert r in s1.loaded || r in b[..i - |a|];
      }
    }
  }

  lemma {:induction false} LoadInOrder(ms: Modules, fails: set<Command>, s: State, name: Name, rank: Name -> nat)
    requires Load(ms, fails, s, name).0.Loaded? && Ranked(ms, rank)
    ensures var names := Newly(s, Load(ms, fails, s, name).1);
            RequirementsFirst(ms, s.loaded, names) && forall n | n in names :: rank(n) <= rank(name)
    decreases Pending(ms, s), 0, 0
  {
    if name !in s.loaded {
      var marked := MarkLoaded(ms, s, name);
      var m := ms[name];
      LoadAllInOrder(ms, fails, marked, m.requires_, rank, rank(name));
      LoadAllExact(ms, fails, marked, m.requires_);
      var s1 := LoadAll(ms, fails, marked, m.requires_).1;
      var names := Newly(marked, s1);
      assert Newly(s, Load(ms, fails, s, name).1) == names + [name];
      forall i, r | 0 <= i < |names + [name]| && (names + [name])[i] in ms && r in ms[(names + [name])[i]].requires_
        ensures r in s.loaded || r in (names + [name])[..i]
      {
        if i < |names| {
          assert (names + [name])[..i] == names[..i] && names[i] in names;
          assert r != name;
        } else {
          assert (names + [name])[..i] == names;
          assert r in s1.loaded && r != name;
        }
      }
    }
  }

  /** What a list of modules adds is what its first adds, then what the others add. */
  lemma LoadAllUnfolds(ms: Modules, fails: set<Command>, s: State, names: seq<Name>)
    requires |names| > 0 && LoadAll(ms, fails, s, names).0.Loaded?
    ensures var s1 := Load(ms, fails, s, names[0]).1;
            var s2 := LoadAll(ms, fails, s1, names[1..]).1;
            && Load(ms, fails, s, names[0]).0.Loaded? && LoadAll(ms, fails, s1, names[1..]).0.Loaded?
            && LoadAll(ms, fails, s, names).1 == s2
            && s1.loaded == s.loaded + (set n | n in Newly(s, s1))
            && Newly(s, s2) == Newly(s, s1) + Newly(s1, s2)
  {
    var s1 := Load(ms, fails, s, names[0]).1;
    LoadExact(ms, fails, s, names[0]);
    LoadAllExact(ms, fails, s1, names[1..]);
    var s2 := LoadAll(ms, fails, s1, names[1..]).1;
    NewlyJoin(s, s1, s2);
  }

  lemma NewlyJoin(s: State, s1: State, s2: State)
    requires s1.finished == s.finished + Newly(s, s1) && s2.finished == s1.finished + Newly(s1, s2)
    ensures Newly(s, s2) == Newly(s, s1) + Newly(s1, s2)
  {
    assert s2.finished == s.finished + (Newly(s, s1) + Newly(s1, s2));
  }

  lemma {:induction false} LoadAllInOrder(ms: Modules, fails: set<Command>, s: State, names: seq<Name>,
      rank: Name -> nat, top: nat)
    requires LoadAll(ms, fails, s, names).0.Loaded? && Ranked(ms, rank)
    requires forall n | n in names :: rank(n) < top
    ensures var ids := Newly(s, LoadAll(ms, fails, s, names).1);
            RequirementsFirst(ms, s.loaded, ids) && forall n | n in ids :: rank(n) < top
    decreases Pending(ms, s), 1, |names|
  {
    if |names| > 0 {
      var s1 := Load(ms, fails, s, names[0]).1;
      var s2 := LoadAll(ms, fails, s1, names[1..]).1;
      LoadAllUnfolds(ms, fails, s, names);
      LoadInOrder(ms, fails, s, names[0], rank);
      LoadAllInOrder(ms, fails, s1, names[1..], rank, top);
      RequirementsFirstJoin(ms, s, s1, Newly(s, s1), Newly(s1, s2));
    }
  }

  /**
   * Main result: a load that does not throw, over any `requires` graph, loads the least set of
   * modules that is closed under requirements, runs the commands of each exactly once and returns
   * their run blocks in that same order.
   */
  lemma LoadTheorem(ms: Modules, fails: set<Command>, s: State, names: seq<Name>)
    requires LoadAll(ms, fails, s, names).0.Loaded?
    ensures var (o, s') := LoadAll(ms, fails, s, names);
            var ids := Newly(s, s');
            && Loads(ms, s, s', ids, o.runBlocks) && RequirementsMet(ms, s.loaded, ids)
            && (forall n | n in names :: n in s.loaded || n in ids)
    ensures forall bound: set<Name> | ClosedUnderRequires(ms, s.loaded, bound)
            && (forall n | n in names :: n in bound || n in s.loaded) ::
              forall n | n in Newly(s, LoadAll(ms, fails, s, names).1) :: n in bound
  {
    LoadAllExact(ms, fails, s, names);
    forall bound: set<Name> | ClosedUnderRequires(ms, s.loaded, bound)
        && (forall n | n in names :: n in bound || n in s.loaded)
      ensures forall n | n in Newly(s, LoadAll(ms, fails, s, names).1) :: n in bound
    {
      LoadAllWithin(ms, fails, s, names, bound);
    }
  }

  /** Main result: on an acyclic graph commands and run blocks come in topological order. */
  lemma LoadOrder(ms: Modules, fails: set<Command>, s: State, names: seq<Name>, rank: Name -> nat)
    requires LoadAll(ms, fails, s, names).0.Loaded? && Ranked(ms, rank)
    ensures RequirementsFirst(ms, s.loaded, Newly(s, LoadAll(ms, fails, s, names).1))
  {
    var top := HighestRank(names, rank);
    LoadAllInOrder(ms, fails, s, names, rank, top);
  }

  function HighestRank(names: seq<Name>, rank: Name -> nat): (top: nat)
    ensures forall n | n in names :: rank(n) < top
    decreases |names|
  {
    if |names| == 0 then 0 else
    var rest := HighestRank(names[1..], rank);
    if rank(names[0]) < rest then rest else rank(names[0]) + 1
  }

  // ---- across several loads, failing ones included

  /** From one log to the next: only names that were not loaded before have been added, each once. */
  ghost predicate Adds(s: State, s': State, before: seq<Name>, after: seq<Name>) {
    && |before| <= |after| && after[..|before|] == before
    && NoDuplicates(after[|before|..])
    && forall n | n in after[|before|..] :: n !in s.loaded && n in s'.loaded
  }

  /** Whatever the outcome, a queue is started at most once, and finished at most once. */
  ghost predicate Progress(s: State, s': State) {
    && s.loaded <= s'.loaded
    && Adds(s, s', s.started, s'.started) && Adds(s, s', s.finished, s'.finished)
  }

  lemma AddsJoin(s: State, s1: State, s2: State, l: seq<Name>, l1: seq<Name>, l2: seq<Name>)
    requires s.loaded <= s1.loaded <= s2.loaded && Adds(s, s1, l, l1) && Adds(s1, s2, l1, l2)
    ensures Adds(s, s2, l, l2)
  {
    var a, b := l1[|l|..], l2[|l1|..];
    assert l2 == l + a + b && l2[|l|..] == a + b;
    forall n | n in b ensures n !in a { }
    NamesJoin(a, b);
    forall n | n in a + b ensures n !in s.loaded && n in s2.loaded { assert n in a || n in b; }
  }

  lemma ProgressJoin(s: State, s1: State, s2: State)
    requires Progress(s, s1) && Progress(s1, s2)
    ensures Progress(s, s2)
  {
    AddsJoin(s, s1, s2, s.started, s1.started, s2.started);
    AddsJoin(s, s1, s2, s.finished, s1.finished, s2.finished);
  }

  /** What the requirements of a module add, with or without the module itself. */
  lemma AddsLast(s: State, marked: State, s1: State, name: Name, l: seq<Name>, l1: seq<Name>)
    requires marked.loaded == s.loaded + {name} && name !in s.loaded && marked.loaded <= s1.loaded
            && Adds(marked, s1, l, l1)
    ensures Adds(s, s1, l, l1) && Adds(s, s1, l, l1 + [name])
    ensures name !in l1[|l|..] && name in (l1 + [name])[|l|..]
  {
    var a := l1[|l|..];
    assert (l1 + [name])[|l|..] == a + [name] && (l1 + [name])[..|l|] == l1[..|l|];
    assert NoDuplicates([name]);
    NamesJoin(a, [name]);
  }

  lemma {:induction false} LoadProgress(ms: Modules, fails: set<Command>, s: State, name: Name)
    ensures var (o, s') := Load(ms, fails, s, name);
            Progress(s, s') && (name !in s.loaded ==> (name in Newly(s, s') <==> o.Loaded?))
    decreases Pending(ms, s), 0, 0
  {
    if name !in s.loaded && name in ms {
      var marked := MarkLoaded(ms, s, name);
      LoadAllProgress(ms, fails, marked, ms[name].requires_);
      var s1 := LoadAll(ms, fails, marked, ms[name].requires_).1;
      AddsLast(s, marked, s1, name, s.started, s1.started);
      AddsLast(s, marked, s1, name, s.finished, s1.finished);
    }
  }

  lemma {:induction false} LoadAllProgress(ms: Modules, fails: set<Command>, s: State, names: seq<Name>)
    ensures Progress(s, LoadAll(ms, fails, s, names).1)
    decreases Pending(ms, s), 1, |names|
  {
    if |names| > 0 {
      LoadProgress(ms, fails, s, names[0]);
      var (first, s1) := Load(ms, fails, s, names[0]);
      if first.Loaded? {
        LoadAllProgress(ms, fails, s1, names[1..]);
        ProgressJoin(s, s1, LoadAll(ms, fails, s1, names[1..]).1);
      }
    }
  }

  function LoadCalls(ms: Modules, fails: set<Command>, s: State, calls: seq<seq<Name>>): State
    decreases |calls|
  {
    if |calls| == 0 then s else LoadCalls(ms, fails, LoadAll(ms, fails, s, calls[0]).1, calls[1..])
  }

  /** Main result, over the injector's life: the first load and all later ones run a module at most once. */
  lemma {:induction false} EachModuleOnce(ms: Modules, fails: set<Command>, s: State, calls: seq<seq<Name>>)
    ensures Progress(s, LoadCalls(ms, fails, s, calls))
    decreases |calls|
  {
    if |calls| > 0 {
      LoadAllProgress(ms, fails, s, calls[0]);
      var s1 := LoadAll(ms, fails, s, calls[0]).1;
      EachModuleOnce(ms, fails, s1, calls[1..]);
      ProgressJoin(s, s1, LoadCalls(ms, fails, s1, calls[1..]));
    }
  }

  // ---- when a load succeeds

  /** A module that is known and none of whose commands throws. */
  predicate Runs(ms: Modules, fails: set<Command>, n: Name) {
    n in ms && forall c | c in ms[n].commands :: c !in fails
  }

  /** A chain of requirements through modules that are not loaded yet. */
  ghost predicate Chain(ms: Modules, s: State, p: seq<Name>) {
    |p| >= 1 && forall i | 0 <= i < |p| - 1 :: p[i] !in s.loaded && p[i] in ms && p[i + 1] in ms[p[i]].requires_
  }

  ghost predicate LeadsTo(ms: Modules, s: State, names: seq<Name>, n: Name, p: seq<Name>) {
    Chain(ms, s, p) && p[0] in names && p[|p| - 1] == n && n !in s.loaded
  }

  /** A module that a load of the names comes to. */
  ghost predicate Reaches(ms: Modules, s: State, names: seq<Name>, n: Name) {
    exists p :: LeadsTo(ms, s, names, n, p)
  }

  ghost predicate AllRun(ms: Modules, fails: set<Command>, s: State, names: seq<Name>) {
    forall n | Reaches(ms, s, names, n) :: Runs(ms, fails, n)
  }

  lemma {:induction false} LoadFailure(ms: Modules, fails: set<Command>, s: State, name: Name) returns (p: seq<Name>)
    requires Load(ms, fails, s, name).0.Failed?
    ensures |p| >= 1 && LeadsTo(ms, s, [name], p[|p| - 1], p) && !Runs(ms, fails, p[|p| - 1])
    decreases Pending(ms, s), 0, 0
  {
    p := [name];
    if name in ms {
      var marked := MarkLoaded(ms, s, name);
      if LoadAll(ms, fails, marked, ms[name].requires_).0.Failed? {
        var tail := LoadAllFailure(ms, fails, marked, ms[name].requires_);
        p := [name] + tail;
        assert forall i | 0 < i < |p| :: p[i] == tail[i - 1];
      } else {
        ExecuteAll(fails, ms[name].commands);
      }
    }
  }

  lemma {:induction false} LoadAllFailure(ms: Modules, fails: set<Command>, s: State, names: seq<Name>)
    returns (p: seq<Name>)
    requires LoadAll(ms, fails, s, names).0.Failed?
    ensures |p| >= 1 && LeadsTo(ms, s, names, p[|p| - 1], p) && !Runs(ms, fails, p[|p| - 1])
    decreases Pending(ms, s), 1, |names|
  {
    var (first, s1) := Load(ms, fails, s, names[0]);
    if first.Failed? {
      p := LoadFailure(ms, fails, s, names[0]);
    } else {
      p := LoadAllFailure(ms, fails, s1, names[1..]);
    }
  }

  lemma {:induction false} LoadedRuns(ms: Modules, fails: set<Command>, s: State, name: Name)
    requires Load(ms, fails, s, name).0.Loaded?
    ensures forall n | n in Newly(s, Load(ms, fails, s, name).1) :: Runs(ms, fails, n)
    decreases Pending(ms, s), 0, 0
  {
    if name !in s.loaded {
      var marked := MarkLoaded(ms, s, name);
      LoadAllExact(ms, fails, marked, ms[name].requires_);
      AllLoadedRun(ms, fails, marked, ms[name].requires_);
      LoadUnfolds(ms, fails, s, name);
      ExecuteAll(fails, ms[name].commands);
    }
  }

  lemma {:induction false} AllLoadedRun(ms: Modules, fails: set<Command>, s: State, names: seq<Name>)
    requires LoadAll(ms, fails, s, names).0.Loaded?
    ensures forall n | n in Newly(s, LoadAll(ms, fails, s, names).1) :: Runs(ms, fails, n)
    decreases Pending(ms, s), 1, |names|
  {
    if |names| > 0 {
      LoadAllUnfolds(ms, fails, s, names);
      LoadedRuns(ms, fails, s, names[0]);
      AllLoadedRun(ms, fails, Load(ms, fails, s, names[0]).1, names[1..]);
    }
  }

  /** From a module that has been loaded along, a chain never leaves what has been loaded along. */
  lemma {:induction false} ChainIsLoaded(ms: Modules, s: State, ids: seq<Name>, p: seq<Name>, i: nat, j: nat)
    requires Chain(ms, s, p) && RequirementsMet(ms, s.loaded, ids) && i <= j < |p| && p[i] in ids
    requires p[|p| - 1] !in s.loaded
    ensures p[j] in ids
    decreases j - i
  {
    if i < j { ChainIsLoaded(ms, s, ids, p, i + 1, j); }
  }

  /** A load that does not throw loads exactly the modules it can reach. */
  lemma LoadsReached(ms: Modules, fails: set<Command>, s: State, names: seq<Name>)
    requires LoadAll(ms, fails, s, names).0.Loaded?
    ensures forall n :: n in Newly(s, LoadAll(ms, fails, s, names).1) <==> Reaches(ms, s, names, n)
  {
    var s' := LoadAll(ms, fails, s, names).1;
    var ids := Newly(s, s');
    LoadAllExact(ms, fails, s, names);
    forall n | Reaches(ms, s, names, n) ensures n in ids {
      var p :| LeadsTo(ms, s, names, n, p);
      assert p[0] !in s.loaded && p[0] in s'.loaded;
      ChainIsLoaded(ms, s, ids, p, 0, |p| - 1);
    }
    var bound := set n | n in ids && Reaches(ms, s, names, n);
    assert ClosedUnderRequires(ms, s.loaded, bound) by {
      forall n, r | n in bound && n in ms && n !in s.loaded && r in ms[n].requires_ && r !in s.loaded
          ensures r in bound {
        ReachesOn(ms, s, names, n, r);
      }
    }
    forall n | n in names ensures n in bound || n in s.loaded {
      if n !in s.loaded { assert LeadsTo(ms, s, names, n, [n]); }
    }
    LoadAllWithin(ms, fails, s, names, bound);
  }

  lemma ReachesOn(ms: Modules, s: State, names: seq<Name>, n: Name, r: Name)
    requires Reaches(ms, s, names, n) && n in ms && r in ms[n].requires_ && r !in s.loaded
    ensures Reaches(ms, s, names, r)
  {
    var p :| LeadsTo(ms, s, names, n, p);
    assert LeadsTo(ms, s, names, r, p + [r]);
  }

  /** Main result: a load succeeds iff every module it can reach is known and has no command that throws. */
  lemma LoadSucceedsIff(ms: Modules, fails: set<Command>, s: State, names: seq<Name>)
    ensures LoadAll(ms, fails, s, names).0.Loaded? <==> AllRun(ms, fails, s, names)
  {
    if LoadAll(ms, fails, s, names).0.Loaded? {
      LoadsReached(ms, fails, s, names);
      AllLoadedRun(ms, fails, s, names);
    } else {
      var p := LoadAllFailure(ms, fails, s, names);
      assert Reaches(ms, s, names, p[|p| - 1]);
    }
  }

  /** What a later load can reach, and an earlier one has not loaded, is what it could reach at first. */
  lemma ReachesLater(ms: Modules, fails: set<Command>, s: State, names: seq<Name>, later: seq<Name>, n: Name)
    requires LoadAll(ms, fails, s, names).0.Loaded?
    ensures var s1 := LoadAll(ms, fails, s, names).1;
            Reaches(ms, s1, later, n) <==> Reaches(ms, s, later, n) && n !in Newly(s, s1)
  {
    var s1 := LoadAll(ms, fails, s, names).1;
    var ids := Newly(s, s1);
    LoadAllExact(ms, fails, s, names);
    if p :| LeadsTo(ms, s1, later, n, p) { assert LeadsTo(ms, s, later, n, p); }
    if Reaches(ms, s, later, n) && n !in ids {
      var p :| LeadsTo(ms, s, later, n, p);
      forall i | 0 <= i < |p| - 1 ensures p[i] !in s1.loaded {
        if p[i] in ids { ChainIsLoaded(ms, s, ids, p, i, |p| - 1); }
      }
      assert LeadsTo(ms, s1, later, n, p);
    }
  }

  /**
   * Main result: over the first load and all later ones, if nothing they can reach is unknown or throws, the queue of
   * each module any of them can reach runs exactly once, and no other.
   */
  lemma {:induction false} ExactlyOnce(ms: Modules, fails: set<Command>, s: State, calls: seq<seq<Name>>)
    requires forall names | names in calls :: AllRun(ms, fails, s, names)
    ensures var s' := LoadCalls(ms, fails, s, calls);
            && Progress(s, s')
            && forall n :: n in Newly(s, s') <==> exists names :: names in calls && Reaches(ms, s, names, n)
    decreases |calls|
  {
    EachModuleOnce(ms, fails, s, calls);
    if |calls| > 0 {
      var first, rest := calls[0], calls[1..];
      var s1 := LoadAll(ms, fails, s, first).1;
      LoadSucceedsIff(ms, fails, s, first);
      LoadsReached(ms, fails, s, first);
      LoadAllProgress(ms, fails, s, first);
      EachModuleOnce(ms, fails, s1, rest);
      forall names, n | names in rest ensures Reaches(ms, s1, names, n)
          <==> Reaches(ms, s, names, n) && n !in Newly(s, s1) {
        ReachesLater(ms, fails, s, first, names, n);
      }
      forall names | names in rest ensures AllRun(ms, fails, s1, names) {
        assert names in calls;
        forall n | Reaches(ms, s1, names, n) ensures Runs(ms, fails, n) { assert Reaches(ms, s, names, n); }
      }
      ExactlyOnce(ms, fails, s1, rest);
      var s' := LoadCalls(ms, fails, s, calls);
      assert Newly(s, s') == Newly(s, s1) + Newly(s1, s');
      assert forall names :: names in calls <==> names == first || names in rest;
    }
  }

  /**
   * A module is marked before it runs: it runs iff everything its load can reach does, and otherwise a later load
   * reports success without running it.
   */
  lemma FailedModuleIsNotRetried(ms: Modules, fails: set<Command>, s: State, name: Name)
    requires name !in s.loaded && (forall n | n in s.finished :: n in s.loaded)
    ensures var (o, s') := Load(ms, fails, s, name);
            && (name in s'.finished <==> AllRun(ms, fails, s, [name]))
            && Load(ms, fails, s', name) == (Loaded([]), s')
  {
    LoadProgress(ms, fails, s, name);
    var (o, s') := Load(ms, fails, s, name);
    assert s'.finished == s.finished + Newly(s, s');
    LoadSucceedsIff(ms, fails, s, [name]);
    assert [name][1..] == [];
  }

  // ---- names come in the order given

  /** A list is loaded as its first part and then the rest: what the first part loads comes first. */
  lemma {:induction false} EarlierNamesFirst(ms: Modules, fails: set<Command>, s: State, a: seq<Name>, b: seq<Name>)
    requires LoadAll(ms, fails, s, a + b).0.Loaded?
    ensures var first, whole := LoadAll(ms, fails, s, a), LoadAll(ms, fails, s, a + b);
            && first.0.Loaded? && first.1.finished <= whole.1.finished && first.1.executed <= whole.1.executed
            && first.0.runBlocks <= whole.0.runBlocks
    decreases |a|
  {
    LoadAllExact(ms, fails, s, a + b);
    if |a| == 0 {
      assert a + b == b;
    } else {
      assert (a + b)[1..] == a[1..] + b;
      var (first, s1) := Load(ms, fails, s, a[0]);
      EarlierNamesFirst(ms, fails, s1, a[1..], b);
    }
  }

  /** Requirements are loaded from the first to the last, each with all it needs, and the module itself after them. */
  lemma RequirementsInOrder(ms: Modules, fails: set<Command>, s: State, name: Name, a: seq<Name>, b: seq<Name>)
    requires name in ms && name !in s.loaded && ms[name].requires_ == a + b && Load(ms, fails, s, name).0.Loaded?
    ensures var first := LoadAll(ms, fails, s.(loaded := s.loaded + {name}), a);
            var s' := Load(ms, fails, s, name).1;
            && first.0.Loaded? && first.1.finished <= s'.finished && first.1.executed <= s'.executed
            && |s'.finished| > |first.1.finished| && s'.finished[|s'.finished| - 1] == name
  {
    EarlierNamesFirst(ms, fails, MarkLoaded(ms, s, name), a, b);
  }

  // ---- the object that is changed in place

  class Loader {
    const modules: Modules
    const fails: set<Command>
    var loaded: set<Name>
    var executed: seq<Command>
    ghost var started: seq<Name>
    ghost var finished: seq<Name>

    ghost function View(): State
      reads this
    {
      State(loaded, executed, started, finished)
    }

    constructor (modules: Modules, fails: set<Command>)
      ensures this.modules == modules && this.fails == fails && View() == State({}, [], [], [])
    {
      this.modules, this.fails := modules, fails;
      loaded, executed, started, finished := {}, [], [], [];
    }

    /** The `forEach` over an invoke queue; an exception ends it. */
    method RunQueue(commands: seq<Command>) returns (ok: bool)
      modifies this`executed
      ensures executed == old(executed) + Execute(fails, commands).0 && ok == Execute(fails, commands).1
    {
      var i := 0;
      assert commands[0..] == commands;
      while i < |commands|
        invariant 0 <= i <= |commands|
        invariant executed + Execute(fails, commands[i..]).0 == old(executed) + Execute(fails, commands).0
        invariant Execute(fails, commands[i..]).1 == Execute(fails, commands).1
      {
        assert commands[i..][1..] == commands[i + 1..];
        if commands[i] in fails { return false; }
        executed := executed + [commands[i]];
        i := i + 1;
      }
      return true;
    }

    /** `loadModules` */
    method LoadModules(names: seq<Name>) returns (o: Outcome)
      modifies this
      ensures (o, View()) == LoadAll(modules, fails, old(View()), names)
      ensures Progress(old(View()), View())
      decreases Pending(modules, View()), 1
    {
      ghost var start := View();
      LoadAllProgress(modules, fails, start, names);
      var runBlocks: seq<RunBlock> := [];
      var i := 0;
      assert names[0..] == names;
      assert forall rb: seq<RunBlock> :: [] + rb == rb;
      while i < |names|
        invariant 0 <= i <= |names|
        invariant Pending(modules, View()) <= Pending(modules, start)
        invariant var (rest, s) := LoadAll(modules, fails, View(), names[i..]);
                  LoadAll(modules, fails, start, names)
                  == (if rest.Failed? then (Failed, s) else (Loaded(runBlocks + rest.runBlocks), s))
      {
        assert names[i..][1..] == names[i + 1..];
        var m := LoadOne(names[i]);
        if m.Failed? { return Failed; }
        assert forall rb: seq<RunBlock> :: runBlocks + (m.runBlocks + rb) == runBlocks + m.runBlocks + rb;
        runBlocks := runBlocks + m.runBlocks;
        i := i + 1;
      }
      assert runBlocks + [] == runBlocks;
      return Loaded(runBlocks);
    }

    method LoadOne(name: Name) returns (o: Outcome)
      modifies this
      ensures (o, View()) == Load(modules, fails, old(View()), name)
      decreases Pending(modules, View()), 0
    {
      ghost var start := View();
      if name in loaded { return Loaded([]); }
      loaded := loaded + {name};
      assert View() == MarkLoaded(modules, start, name);
      if name !in modules { return Failed; }
      var required := LoadModules(modules[name].requires_);
      if required.Failed? { return Failed; }
      started := started + [name];
      var ok := RunQueue(modules[name].commands);
      if !ok { return Failed; }
      finished := finished + [name];
      return Loaded(required.runBlocks + modules[name].runBlocks);
    }
  }
}
