/** `InjectorService` with its cache, changed in place around the recursion. */
module InjectorServices {
  import opened Basics
  import opened Injector

  class InjectorService {
    const providers: Providers
    var cache: map<Name, Value>
    ghost var built: seq<Name>

    ghost function View(): State
      reads this
    {
      State(cache, built)
    }

    constructor (providers: Providers, constants: map<Name, Value>)
      ensures this.providers == providers && View() == State(constants, [])
    {
      this.providers := providers;
      cache, built := constants, [];
    }

    /** `get`: the entry is marked before the factory runs and dropped again if it throws. */
    method Lookup(name: Name) returns (r: Result<Value>)
      modifies this
      ensures (r, View()) == Get(providers, old(View()), name)
      ensures PlainFactories(providers) ==> Extends(old(View()), View())
      decreases Pending(providers, View()), 1, 0
    {
      ghost var start := View();
      if PlainFactories(providers) { GetExtends(providers, start, name); }
      if name in cache {
        if cache[name] == True { return Err(Circular(name)); }
        return Ok(cache[name]);
      }
      if name !in providers { return Err(Unknown(name)); }
      cache := cache[name := True];
      assert View() == Mark(providers, start, name);
      var args := InjectionArgs(providers[name].deps);
      if args.Err? {
        cache := cache - {name};
        return Err(args.error);
      }
      var made := providers[name].make(args.value);
      if made.None? {
        cache := cache - {name};
        return Err(FactoryFailed(name));
      }
      cache := cache[name := made.value];
      built := built + [name];
      return Ok(made.value);
    }

    /** `_injectionArgs` */
    method InjectionArgs(deps: seq<Name>) returns (r: Result<seq<Value>>)
      modifies this
      ensures (r, View()) == Resolve(providers, old(View()), deps)
      decreases Pending(providers, View()), 2, |deps|
    {
      ghost var start := View();
      var args: seq<Value> := [];
      var i := 0;
      assert deps[0..] == deps;
      assert forall vs: seq<Value> :: [] + vs == vs;
      while i < |deps|
        invariant 0 <= i <= |deps|
        invariant Pending(providers, View()) <= Pending(providers, start)
        invariant var (rest, s) := Resolve(providers, View(), deps[i..]);
                  Resolve(providers, start, deps)
                  == (if rest.Err? then (Err(rest.error), s) else (Ok(args + rest.value), s))
      {
        assert deps[i..][1..] == deps[i + 1..];
        var v := Lookup(deps[i]);
        if v.Err? { return Err(v.error); }
        assert forall vs: seq<Value> :: args + ([v.value] + vs) == args + [v.value] + vs;
        args := args + [v.value];
        i := i + 1;
      }
      assert args + [] == args;
      return Ok(args);
    }
  }
}
