/** The module-level state of incremental-fragment.ts as one object whose methods change it in place. */
module FragmentStore {
  import opened Fragments
  import opened FragmentLife

  /** Disposing what is left of some children, after a failure or none, ends as disposing all of them does. */
  ghost predicate ChildrenLeft(fails: set<Cleanup>, start: Registry, children: seq<Id>, g: Registry, left: seq<Id>,
    threw: bool)
  {
    DisposeChildren(fails, start, children)
    == (DisposeChildren(fails, g, left).0, threw || DisposeChildren(fails, g, left).1)
  }

  lemma OneChildLess(fails: set<Cleanup>, start: Registry, children: seq<Id>, g: Registry, left: seq<Id>, threw: bool,
                     g1: Registry, t: bool)
    requires |left| > 0 && ChildrenLeft(fails, start, children, g, left, threw)
    requires (g1, t) == Dispose(fails, g.(parents := g.parents - {left[|left| - 1]}), left[|left| - 1])
    ensures ChildrenLeft(fails, start, children, g1, left[..|left| - 1], threw || t)
  {
  }

  class Store {
    const fails: set<Cleanup>
    var records: map<Id, Record>
    var parents: map<Id, Id>
    var listeners: seq<Id>
    var roots: map<Root, RootState>
    var gone: set<Root>
    var log: seq<Cleanup>
    ghost var finished: seq<Id>

    ghost function View(): Registry
      reads this
    {
      Registry(records, parents, listeners, roots, gone, log, finished)
    }

    constructor (fails: set<Cleanup>)
      ensures View() == EMPTY && this.fails == fails
    {
      this.fails := fails;
      records, parents, listeners, roots, gone, log, finished := map[], map[], [], map[], {}, [], [];
    }

    /** `addCompiledFragmentChild` */
    method AddChild(p: Id, c: Id) returns (threw: bool)
      requires Sound(View(), {})
      modifies this
      ensures Sound(View(), {})
      ensures (View(), threw) == AddChildStep(old(View()), p, c)
    {
      AddChildSound(View(), p, c);
      if p == c { return false; }
      if p !in records || records[p].disposed { return true; }
      if c !in records || records[c].disposed { return true; }
      if records[p].root != records[c].root { return true; }
      if c in parents { return parents[c] != p; }
      records := records[p := records[p].(children := records[p].children + [c])];
      parents := parents[c := p];
      listeners := Without(listeners, c);
      return false;
    }

    /** The bookkeeping at the start of a disposal. */
    method Unlink(id: Id)
      requires id in records
      modifies this
      ensures View() == Prepare(old(View()), id)
    {
      records := records[id := records[id].(disposed := true)];
      if id in parents {
        var p := parents[id];
        parents := parents - {id};
        if p in records && !records[p].disposed {
          records := records[p := records[p].(children := RemoveFirst(records[p].children, id))];
        }
      }
      var root := records[id].root;
      if root in roots {
        var members := Without(roots[root].members, id);
        if !roots[root].destroying && |members| == 0 {
          roots := roots - {root};
        } else {
          roots := roots[root := roots[root].(members := members)];
        }
      }
      listeners := Without(listeners, id);
    }

    /** `disposeReverse` over cleanups: every one runs, a failure is remembered. */
    method RunBackwards(cleanups: seq<Cleanup>) returns (threw: bool)
      modifies this`log
      ensures log == old(log) + Reversed(cleanups)
      ensures threw <==> AnyFails(fails, cleanups)
    {
      threw := false;
      var i := |cleanups|;
      while i > 0
        invariant 0 <= i <= |cleanups|
        invariant log == old(log) + Reversed(cleanups)[..|cleanups| - i]
        invariant threw <==> AnyFails(fails, cleanups[i..])
      {
        i := i - 1;
        log := log + [cleanups[i]];
        assert cleanups[i..] == [cleanups[i]] + cleanups[i + 1..];
        if cleanups[i] in fails { threw := true; }
      }
    }

    /** `disposeCompiledFragmentRecord` */
    method DisposeRecord(id: Id) returns (threw: bool)
      modifies this
      ensures (View(), threw) == Dispose(fails, old(View()), id)
      decreases Undisposed(View()), 0
    {
      if id !in records || records[id].disposed { return false; }
      var children := records[id].children;
      Unlink(id);
      threw := DisposeFragmentChildren(children);
      var t := RunCleanups(id);
      threw := threw || t;
    }

    /** `disposeCompiledFragmentChildren`: the last child first. */
    method DisposeFragmentChildren(children: seq<Id>) returns (threw: bool)
      modifies this
      ensures (View(), threw) == DisposeChildren(fails, old(View()), children)
      decreases Undisposed(View()), 1
    {
      ghost var start := View();
      threw := false;
      var i := |children|;
      assert children[..i] == children;
      while i > 0
        invariant 0 <= i <= |children|
        invariant Undisposed(View()) <= Undisposed(start)
        invariant ChildrenLeft(fails, start, children, View(), children[..i], threw)
      {
        ghost var before, left := View(), children[..i];
        i := i - 1;
        parents := parents - {children[i]};
        var t := DisposeRecord(children[i]);
        OneChildLess(fails, start, children, before, left, threw, View(), t);
        assert left[..i] == children[..i];
        threw := threw || t;
      }
    }

    /** A record's own cleanups, and the end of its disposal. */
    method RunCleanups(id: Id) returns (threw: bool)
      requires id in records
      modifies this
      ensures View() == Finish(old(View()), id)
      ensures threw <==> AnyFails(fails, Own(old(records[id])))
    {
      var record := records[id];
      var t1 := RunBackwards(record.asyncWork);
      var t2 := RunBackwards(record.disposers);
      var t3 := RunBackwards(record.childScopes);
      OwnFails(record);
      threw := t1 || t2 || t3;
      finished := finished + [id];
      records := records[id := record.(children := [], asyncWork := [], disposers := [], childScopes := [])];
      OwnLog(old(log), record);
    }

    static lemma OwnLog(l: seq<Cleanup>, r: Record)
      ensures ((l + Reversed(r.asyncWork)) + Reversed(r.disposers)) + Reversed(r.childScopes) == l + Own(r)
    {
    }

    lemma OwnFails(r: Record)
      ensures AnyFails(fails, Own(r))
              <==> AnyFails(fails, r.asyncWork) || AnyFails(fails, r.disposers) || AnyFails(fails, r.childScopes)
    {
      ReversedMembers(r.asyncWork);
      ReversedMembers(r.disposers);
      ReversedMembers(r.childScopes);
    }

    static lemma ReversedMembers(s: seq<Cleanup>)
      ensures forall c :: c in Reversed(s) <==> c in s
    {
      forall c ensures c in Reversed(s) <==> c in s {
        if c in s {
          var i :| 0 <= i < |s| && s[i] == c;
          assert Reversed(s)[|s| - 1 - i] == c;
        }
      }
    }

    /** `disposeReverse` over the members of a root. */
    method DisposeMembers(members: seq<Id>) returns (threw: bool)
      modifies this
      ensures (View(), threw) == DisposeBackwards(fails, old(View()), members)
    {
      threw := false;
      ghost var start := View();
      var i := |members|;
      assert members[..i] == members;
      while i > 0
        invariant 0 <= i <= |members|
        invariant var (g, t) := DisposeBackwards(fails, View(), members[..i]);
                  DisposeBackwards(fails, start, members) == (g, threw || t)
      {
        i := i - 1;
        assert members[..i + 1][..i] == members[..i];
        var t := DisposeRecord(members[i]);
        threw := threw || t;
      }
    }

    /** `disposeRootCompiledFragments` */
    method DestroyRoot(root: Root) returns (threw: bool)
      requires Sound(View(), {})
      modifies this
      ensures Sound(View(), {})
      ensures (View(), threw) == DestroyRootStep(fails, old(View()), root)
    {
      DestroyRootSound(fails, View(), root);
      gone := gone + {root};
      if root !in roots { return false; }
      var members := roots[root].members;
      roots := roots[root := RootState(members, true)];
      threw := DisposeMembers(members);
      roots := roots - {root};
    }
  }
}
