/**
 * The registry of compiled fragments: child links, root membership, scope listeners and disposal
 * (src/core/compile/incremental-fragment.ts). References become identifiers.
 */
module Fragments {
  import opened Basics

  type Id = nat
  type Root = nat
  type Scope = nat
  type Cleanup = nat

  /** `CompiledFragmentRecord`; `parentScope` is the root's own scope exactly when `onRootScope`. */
  datatype Record = Record(
    root: Root,
    onRootScope: bool,
    parentScope: Scope,
    children: seq<Id>,
    asyncWork: seq<Cleanup>,
    disposers: seq<Cleanup>,
    childScopes: seq<Cleanup>,
    disposed: bool)

  /** `RootCompiledFragmentState` */
  datatype RootState = RootState(members: seq<Id>, destroying: bool)

  /**
   * The records with the module-level maps around them; `gone` are the destroyed roots. `log` and `finished` record
   * history: the cleanups that ran and the records whose disposal completed, in order.
   */
  datatype Registry = Registry(
    records: map<Id, Record>,
    parents: map<Id, Id>,
    listeners: seq<Id>,
    roots: map<Root, RootState>,
    gone: set<Root>,
    log: seq<Cleanup>,
    finished: seq<Id>)

  function Undisposed(g: Registry): set<Id> {
    set x | x in g.records && !g.records[x].disposed
  }

  function RemoveFirst(s: seq<Id>, x: Id): (r: seq<Id>)
    ensures x !in s ==> r == s
    ensures forall y | y != x :: y in r <==> y in s
    ensures |r| <= |s|
    decreases |s|
  {
    if |s| == 0 then [] else if s[0] == x then s[1..] else [s[0]] + RemoveFirst(s[1..], x)
  }

  /** Deletion from a set kept in insertion order. */
  function Without(s: seq<Id>, x: Id): (r: seq<Id>)
    ensures forall y :: y in r <==> y in s && y != x
    decreases |s|
  {
    if |s| == 0 then [] else (if s[0] == x then [] else [s[0]]) + Without(s[1..], x)
  }

  function Reversed<T>(s: seq<T>): (r: seq<T>)
    ensures |r| == |s|
    ensures forall i | 0 <= i < |s| :: r[i] == s[|s| - 1 - i]
    decreases |s|
  {
    if |s| == 0 then [] else [s[|s| - 1]] + Reversed(s[..|s| - 1])
  }

  // ---- disposal

  function Mark(g: Registry, id: Id): Registry
    requires id in g.records
  {
    g.(records := g.records[id := g.records[id].(disposed := true)])
  }

  /** `detachCompiledFragmentParent` */
  function Detach(g: Registry, id: Id): Registry {
    if id !in g.parents then g else
    var p := g.parents[id];
    var g1 := g.(parents := g.parents - {id});
    if p !in g.records || g.records[p].disposed then g1
    else g1.(records := g.records[p := g.records[p].(children := RemoveFirst(g.records[p].children, id))])
  }

  /** `unregisterRootCompiledFragment` */
  function Unregister(g: Registry, id: Id): Registry
    requires id in g.records
  {
    var root := g.records[id].root;
    if root !in g.roots then g else
    var members := Without(g.roots[root].members, id);
    if !g.roots[root].destroying && |members| == 0 then g.(roots := g.roots - {root})
    else g.(roots := g.roots[root := g.roots[root].(members := members)])
  }

  function Unlisten(g: Registry, id: Id): Registry {
    g.(listeners := Without(g.listeners, id))
  }

  /** Everything disposal does to a record before it turns to the children. */
  function Prepare(g: Registry, id: Id): (r: Registry)
    requires id in g.records
    ensures r.records.Keys == g.records.Keys
    ensures Undisposed(r) == Undisposed(g) - {id}
  {
    Unlisten(Unregister(Detach(Mark(g, id), id), id), id)
  }

  /** The record's own cleanups in the order they run: each list backwards. */
  function Own(r: Record): seq<Cleanup> {
    Reversed(r.asyncWork) + Reversed(r.disposers) + Reversed(r.childScopes)
  }

  function Finish(g: Registry, id: Id): (r: Registry)
    requires id in g.records
    ensures r.records.Keys == g.records.Keys
    ensures Undisposed(r) == Undisposed(g)
  {
    var record := g.records[id];
    g.(log := g.log + Own(record),
       finished := g.finished + [id],
       records := g.records[id := record.(children := [], asyncWork := [], disposers := [], childScopes := [])])
  }

  predicate AnyFails(fails: set<Cleanup>, cleanups: seq<Cleanup>) {
    exists c | c in cleanups :: c in fails
  }

  /** `disposeCompiledFragmentRecord`: the new registry and whether it throws. */
  function Dispose(fails: set<Cleanup>, g: Registry, id: Id): (r: (Registry, bool))
    ensures r.0.records.Keys == g.records.Keys
    ensures Undisposed(r.0) <= Undisposed(g)
    decreases Undisposed(g), 0, 0
  {
    if id !in g.records || g.records[id].disposed then (g, false) else
    var (g1, childThrew) := DisposeChildren(fails, Prepare(g, id), g.records[id].children);
    (Finish(g1, id), childThrew || AnyFails(fails, Own(g1.records[id])))
  }

  /** `disposeCompiledFragmentChildren`: the last child first, whatever the others do. */
  function DisposeChildren(fails: set<Cleanup>, g: Registry, children: seq<Id>): (r: (Registry, bool))
    ensures r.0.records.Keys == g.records.Keys
    ensures Undisposed(r.0) <= Undisposed(g)
    decreases Undisposed(g), 1, |children|
  {
    if |children| == 0 then (g, false) else
    var last := children[|children| - 1];
    var (g1, threw) := Dispose(fails, g.(parents := g.parents - {last}), last);
    var (g2, othersThrew) := DisposeChildren(fails, g1, children[..|children| - 1]);
    (g2, threw || othersThrew)
  }

  // ---- what one call disposes

  /** The cleanups of several records, one record after the other. */
  function OwnAll(g: Registry, ids: seq<Id>): seq<Cleanup>
    requires forall x | x in ids :: x in g.records
    decreases |ids|
  {
    if |ids| == 0 then [] else OwnAll(g, ids[..|ids| - 1]) + Own(g.records[ids[|ids| - 1]])
  }

  lemma {:induction false} OwnAllAppend(g: Registry, a: seq<Id>, b: seq<Id>)
    requires forall x | x in a + b :: x in g.records
    ensures forall x | x in a :: x in g.records
    ensures forall x | x in b :: x in g.records
    ensures OwnAll(g, a + b) == OwnAll(g, a) + OwnAll(g, b)
    decreases |b|
  {
    forall x | x in a ensures x in g.records { assert x in a + b; }
    forall x | x in b ensures x in g.records { assert x in a + b; }
    if |b| == 0 {
      assert a + b == a;
    } else {
      assert (a + b)[..|a + b| - 1] == a + b[..|b| - 1];
      assert forall x | x in a + b[..|b| - 1] :: x in a + b;
      OwnAllAppend(g, a, b[..|b| - 1]);
    }
  }

  lemma {:induction false} OwnAllSame(g: Registry, g': Registry, ids: seq<Id>)
    requires forall x | x in ids :: x in g.records && x in g'.records && Own(g.records[x]) == Own(g'.records[x])
    ensures OwnAll(g, ids) == OwnAll(g', ids)
    decreases |ids|
  {
    if |ids| > 0 { OwnAllSame(g, g', ids[..|ids| - 1]); }
  }

  /** Exactly the records `ids` become disposed, each once and in that order. */
  ghost predicate Takes(g: Registry, g': Registry, ids: seq<Id>) {
    && NoDuplicates(ids) && (forall x | x in ids :: x in Undisposed(g))
    && Undisposed(g') == Undisposed(g) - (set x | x in ids)
    && g'.finished == g.finished + ids
  }

  /** Exactly their cleanups run, each once, failing or not; one failure is enough to throw. */
  ghost predicate Cleans(fails: set<Cleanup>, g: Registry, g': Registry, ids: seq<Id>, threw: bool) {
    && (forall x | x in ids :: x in g.records)
    && g'.log == g.log + OwnAll(g, ids)
    && (threw <==> AnyFails(fails, OwnAll(g, ids)))
  }

  /** All other records stay as they are. */
  ghost predicate KeepsOthers(g: Registry, g': Registry, ids: seq<Id>) {
    g'.records.Keys == g.records.Keys
    && forall x | x in g.records && x !in ids :: g'.records[x] == g.records[x]
  }

  ghost predicate Disposes(fails: set<Cleanup>, g: Registry, g': Registry, ids: seq<Id>, threw: bool) {
    Takes(g, g', ids) && Cleans(fails, g, g', ids, threw) && KeepsOthers(g, g', ids)
  }

  lemma FailsJoin(fails: set<Cleanup>, a: seq<Cleanup>, b: seq<Cleanup>)
    ensures AnyFails(fails, a + b) <==> AnyFails(fails, a) || AnyFails(fails, b)
  {
    assert forall c :: c in a + b <==> c in a || c in b;
  }

  lemma NoDuplicatesJoin(a: seq<Id>, b: seq<Id>)
    requires NoDuplicates(a) && NoDuplicates(b) && forall x | x in a :: x !in b
    ensures NoDuplicates(a + b)
  {
    forall i, j | 0 <= i < j < |a + b| ensures (a + b)[i] != (a + b)[j] {
      if i < |a| && j >= |a| { assert a[i] in a && b[j - |a|] in b; }
    }
  }

  lemma TakesJoin(g: Registry, g1: Registry, g2: Registry, a: seq<Id>, b: seq<Id>)
    requires Takes(g, g1, a) && Takes(g1, g2, b)
    ensures Takes(g, g2, a + b)
  {
    forall x | x in b ensures x !in a && x in Undisposed(g) { assert x in Undisposed(g1); }
    NoDuplicatesJoin(a, b);
    assert (set x | x in a + b) == (set x | x in a) + (set x | x in b);
  }

  lemma CleansJoin(fails: set<Cleanup>, g: Registry, g1: Registry, g2: Registry, a: seq<Id>, b: seq<Id>, t1: bool,
      t2: bool)
    requires Cleans(fails, g, g1, a, t1) && Cleans(fails, g1, g2, b, t2)
    requires forall x | x in b :: x in g.records && Own(g.records[x]) == Own(g1.records[x])
    ensures Cleans(fails, g, g2, a + b, t1 || t2)
  {
    forall x | x in a + b ensures x in g.records { assert x in a || x in b; }
    OwnAllAppend(g, a, b);
    OwnAllSame(g, g1, b);
    FailsJoin(fails, OwnAll(g, a), OwnAll(g, b));
    assert g2.log == g.log + OwnAll(g, a + b);
  }

  lemma DisposesJoin(fails: set<Cleanup>, g: Registry, g1: Registry, g2: Registry, a: seq<Id>, b: seq<Id>, t1: bool,
      t2: bool)
    requires Disposes(fails, g, g1, a, t1) && Disposes(fails, g1, g2, b, t2)
    ensures Disposes(fails, g, g2, a + b, t1 || t2)
  {
    TakesJoin(g, g1, g2, a, b);
    forall x | x in b ensures x !in a && x in g.records { assert x in Undisposed(g1); }
    CleansJoin(fails, g, g1, g2, a, b, t1, t2);
  }

  /** The records one call disposes, in the order their disposal completes. */
  function Order(fails: set<Cleanup>, g: Registry, id: Id): seq<Id> {
    var g' := Dispose(fails, g, id).0;
    if |g.finished| <= |g'.finished| then g'.finished[|g.finished|..] else []
  }

  function OrderAll(fails: set<Cleanup>, g: Registry, children: seq<Id>): seq<Id> {
    var g' := DisposeChildren(fails, g, children).0;
    if |g.finished| <= |g'.finished| then g'.finished[|g.finished|..] else []
  }

  lemma PrepareRecords(g: Registry, id: Id)
    requires id in g.records && id !in g.parents
    ensures var p := Prepare(g, id);
            && p.records == g.records[id := g.records[id].(disposed := true)]
            && p.parents == g.parents && p.log == g.log && p.finished == g.finished
  {
  }

  lemma FinishTakes(g: Registry, g1: Registry, id: Id, ids: seq<Id>)
    requires id in Undisposed(g) && Takes(Prepare(g, id), g1, ids) && id in g1.records
    requires Prepare(g, id).finished == g.finished
    ensures Takes(g, Finish(g1, id), ids + [id])
  {
    var p := Prepare(g, id);
    assert id !in Undisposed(p);
    NoDuplicatesJoin(ids, [id]);
    assert (set x | x in ids + [id]) == (set x | x in ids) + {id};
  }

  lemma OwnAllSnoc(g: Registry, ids: seq<Id>, id: Id)
    requires id in g.records && forall x | x in ids :: x in g.records
    ensures forall x | x in ids + [id] :: x in g.records
    ensures OwnAll(g, ids + [id]) == OwnAll(g, ids) + Own(g.records[id])
  {
    assert (ids + [id])[..|ids|] == ids;
  }

  lemma FinishCleans(fails: set<Cleanup>, g: Registry, p: Registry, g1: Registry, id: Id, ids: seq<Id>, threw: bool)
    requires id in g.records && id in g1.records && Cleans(fails, p, g1, ids, threw)
    requires p.log == g.log && p.records.Keys == g.records.Keys
    requires forall x | x in g.records :: Own(p.records[x]) == Own(g.records[x])
    requires Own(g1.records[id]) == Own(g.records[id])
    ensures Cleans(fails, g, Finish(g1, id), ids + [id], threw || AnyFails(fails, Own(g1.records[id])))
  {
    OwnAllSame(p, g, ids);
    OwnAllSnoc(g, ids, id);
    FailsJoin(fails, OwnAll(g, ids), Own(g.records[id]));
    LogJoin(g.log, OwnAll(g, ids), Own(g.records[id]));
  }

  lemma LogJoin(a: seq<Cleanup>, b: seq<Cleanup>, c: seq<Cleanup>)
    ensures (a + b) + c == a + (b + c)
  {
  }

  lemma FinishDisposes(fails: set<Cleanup>, g: Registry, g1: Registry, id: Id, ids: seq<Id>, threw: bool)
    requires id in Undisposed(g) && id !in g.parents && Disposes(fails, Prepare(g, id), g1, ids, threw)
    ensures Disposes(fails, g, Finish(g1, id), ids + [id], threw || AnyFails(fails, Own(g1.records[id])))
  {
    PrepareRecords(g, id);
    var p := Prepare(g, id);
    assert id !in ids by { assert id !in Undisposed(p); }
    assert g1.records[id] == p.records[id];
    FinishTakes(g, g1, id, ids);
    FinishCleans(fails, g, p, g1, id, ids, threw);
  }

  /** Disposal of a record without a parent entry does what it should to the records it takes. */
  lemma {:induction false} DisposeExact(fails: set<Cleanup>, g: Registry, id: Id)
    requires id !in g.parents
    ensures var (g', threw) := Dispose(fails, g, id);
            Disposes(fails, g, g', Order(fails, g, id), threw)
    decreases Undisposed(g), 0, 0
  {
    if id !in g.records || g.records[id].disposed {
      assert Order(fails, g, id) == [];
    } else {
      var p := Prepare(g, id);
      var (g1, threw) := DisposeChildren(fails, p, g.records[id].children);
      DisposeChildrenExact(fails, p, g.records[id].children);
      var ids := OrderAll(fails, p, g.records[id].children);
      PrepareRecords(g, id);
      FinishDisposes(fails, g, g1, id, ids, threw);
      assert Order(fails, g, id) == ids + [id];
    }
  }

  lemma {:induction false} DisposeChildrenExact(fails: set<Cleanup>, g: Registry, children: seq<Id>)
    ensures var (g', threw) := DisposeChildren(fails, g, children);
            Disposes(fails, g, g', OrderAll(fails, g, children), threw)
    decreases Undisposed(g), 1, |children|
  {
    if |children| == 0 {
      assert OrderAll(fails, g, children) == [];
    } else {
      var last := children[|children| - 1];
      var g0 := g.(parents := g.parents - {last});
      var (g1, t1) := Dispose(fails, g0, last);
      var (g2, t2) := DisposeChildren(fails, g1, children[..|children| - 1]);
      DisposeExact(fails, g0, last);
      DisposeChildrenExact(fails, g1, children[..|children| - 1]);
      var a := Order(fails, g0, last);
      var b := OrderAll(fails, g1, children[..|children| - 1]);
      OwnAllSame(g0, g, a);
      assert Disposes(fails, g, g1, a, t1);
      DisposesJoin(fails, g, g1, g2, a, b, t1, t2);
      assert OrderAll(fails, g, children) == a + b;
    }
  }

  // ---- what disposal reaches

  /** Closed under the links from undisposed records to undisposed children. */
  ghost predicate ClosedUnderChildren(g: Registry, s: set<Id>) {
    forall x, c | x in s && x in Undisposed(g) && c in g.records[x].children && c in Undisposed(g) :: c in s
  }

  /** Every undisposed child of a disposed record is disposed with it. */
  ghost predicate TakesChildren(g: Registry, ids: seq<Id>) {
    forall x, c | x in ids && x in g.records && c in g.records[x].children && c in Undisposed(g) :: c in ids
  }

  lemma TakesChildrenJoin(g: Registry, g1: Registry, a: seq<Id>, b: seq<Id>)
    requires Takes(g, g1, a) && KeepsOthers(g, g1, a)
    requires TakesChildren(g, a) && TakesChildren(g1, b)
    requires forall x | x in b :: x in Undisposed(g1)
    ensures TakesChildren(g, a + b)
  {
    forall x, c | x in a + b && x in g.records && c in g.records[x].children && c in Undisposed(g) ensures c in a + b {
      if x !in a { assert c in g1.records[x].children; }
    }
  }

  /** Order of a disposal: the children's, then the record itself. */
  lemma OrderUnfolds(fails: set<Cleanup>, g: Registry, id: Id)
    requires id in Undisposed(g) && id !in g.parents
    ensures var p := Prepare(g, id);
            Order(fails, g, id) == OrderAll(fails, p, g.records[id].children) + [id]
  {
    PrepareRecords(g, id);
    DisposeChildrenExact(fails, Prepare(g, id), g.records[id].children);
  }

  lemma FirstChildDisposed(fails: set<Cleanup>, g: Registry, id: Id)
    ensures var g0 := g.(parents := g.parents - {id});
            var g1 := Dispose(fails, g0, id).0;
            var a := Order(fails, g0, id);
            Takes(g, g1, a) && KeepsOthers(g, g1, a)
  {
    DisposeExact(fails, g.(parents := g.parents - {id}), id);
  }

  lemma OtherChildrenDisposed(fails: set<Cleanup>, g: Registry, children: seq<Id>)
    ensures DisposeChildren(fails, g, children).0.finished == g.finished + OrderAll(fails, g, children)
    ensures forall x | x in OrderAll(fails, g, children) :: x in Undisposed(g)
  {
    DisposeChildrenExact(fails, g, children);
  }

  lemma OrderAllUnfolds(fails: set<Cleanup>, g: Registry, children: seq<Id>)
    requires |children| > 0
    ensures var last := children[|children| - 1];
            var g0 := g.(parents := g.parents - {last});
            var g1 := Dispose(fails, g0, last).0;
            OrderAll(fails, g, children)
            == Order(fails, g0, last) + OrderAll(fails, g1, children[..|children| - 1])
  {
    var last := children[|children| - 1];
    var g0 := g.(parents := g.parents - {last});
    var g1 := Dispose(fails, g0, last).0;
    FirstChildDisposed(fails, g, last);
    OtherChildrenDisposed(fails, g1, children[..|children| - 1]);
    SuffixJoin(g.finished, Order(fails, g0, last), OrderAll(fails, g1, children[..|children| - 1]));
  }

  lemma SuffixJoin(f: seq<Id>, a: seq<Id>, b: seq<Id>)
    ensures |f| <= |(f + a) + b| && ((f + a) + b)[|f|..] == a + b
  {
  }

  lemma {:induction false} DisposeClosure(fails: set<Cleanup>, g: Registry, id: Id)
    requires id !in g.parents
    ensures TakesChildren(g, Order(fails, g, id))
    ensures id in Undisposed(g) ==> id in Order(fails, g, id)
    decreases Undisposed(g), 0, 0
  {
    if id in Undisposed(g) {
      var p := Prepare(g, id);
      var children := g.records[id].children;
      PrepareRecords(g, id);
      DisposeChildrenClosure(fails, p, children);
      OrderUnfolds(fails, g, id);
      var ids := OrderAll(fails, p, children);
      forall x, c | x in ids + [id] && x in g.records && c in g.records[x].children && c in Undisposed(g)
        ensures c in ids + [id]
      {
        if c != id {
          assert c in Undisposed(p);
          assert c in p.records[x].children;
        }
      }
    }
  }

  lemma {:induction false} DisposeChildrenClosure(fails: set<Cleanup>, g: Registry, children: seq<Id>)
    ensures TakesChildren(g, OrderAll(fails, g, children))
    ensures forall c | c in children && c in Undisposed(g) :: c in OrderAll(fails, g, children)
    decreases Undisposed(g), 1, |children|
  {
    if |children| > 0 {
      var last := children[|children| - 1];
      var rest := children[..|children| - 1];
      var g0 := g.(parents := g.parents - {last});
      var g1 := Dispose(fails, g0, last).0;
      var a := Order(fails, g0, last);
      var b := OrderAll(fails, g1, rest);
      OrderAllUnfolds(fails, g, children);
      FirstChildDisposed(fails, g, last);
      OtherChildrenDisposed(fails, g1, rest);
      DisposeClosure(fails, g0, last);
      DisposeChildrenClosure(fails, g1, rest);
      assert TakesChildren(g, a);
      TakesChildrenJoin(g, g1, a, b);
      forall c | c in children && c in Undisposed(g) ensures c in a + b {
        if c != last && c !in a {
          assert c in rest && c in Undisposed(g1);
        }
      }
    }
  }

  /** Nothing outside a closed set is ever touched. */
  lemma {:induction false} DisposeWithin(fails: set<Cleanup>, g: Registry, id: Id, bound: set<Id>)
    requires id !in g.parents && id in bound && ClosedUnderChildren(g, bound)
    ensures forall x | x in Order(fails, g, id) :: x in bound
    decreases Undisposed(g), 0, 0
  {
    if id in Undisposed(g) {
      var p := Prepare(g, id);
      PrepareRecords(g, id);
      assert ClosedUnderChildren(p, bound);
      DisposeChildrenWithin(fails, p, g.records[id].children, bound);
      OrderUnfolds(fails, g, id);
    }
  }

  lemma {:induction false} DisposeChildrenWithin(fails: set<Cleanup>, g: Registry, children: seq<Id>, bound: set<Id>)
    requires ClosedUnderChildren(g, bound)
    requires forall c | c in children && c in Undisposed(g) :: c in bound
    ensures forall x | x in OrderAll(fails, g, children) :: x in bound
    decreases Undisposed(g), 1, |children|
  {
    if |children| > 0 {
      var last := children[|children| - 1];
      var g0 := g.(parents := g.parents - {last});
      var g1 := Dispose(fails, g0, last).0;
      OrderAllUnfolds(fails, g, children);
      FirstChildDisposed(fails, g, last);
      if last in Undisposed(g) {
        assert ClosedUnderChildren(g0, bound);
        DisposeWithin(fails, g0, last, bound);
      }
      assert ClosedUnderChildren(g1, bound);
      DisposeChildrenWithin(fails, g1, children[..|children| - 1], bound);
    }
  }

  // ---- children first

  /** Some measure goes down along every link between undisposed records: there is no cycle. */
  ghost predicate Ranked(g: Registry, rank: Id -> nat) {
    forall x, c | x in Undisposed(g) && c in g.records[x].children && c in Undisposed(g) :: rank(c) < rank(x)
  }

  ghost predicate ChildrenFirst(g: Registry, ids: seq<Id>) {
    forall i, c | 0 <= i < |ids| && ids[i] in g.records && c in g.records[ids[i]].children && c in Undisposed(g) ::
      c in ids[..i]
  }

  lemma ChildrenFirstJoin(g: Registry, g1: Registry, a: seq<Id>, b: seq<Id>)
    requires Takes(g, g1, a) && KeepsOthers(g, g1, a) && ChildrenFirst(g, a) && ChildrenFirst(g1, b)
    requires forall x | x in b :: x in Undisposed(g1)
    ensures ChildrenFirst(g, a + b)
  {
    var ids := a + b;
    forall i, c | 0 <= i < |ids| && ids[i] in g.records && c in g.records[ids[i]].children && c in Undisposed(g)
      ensures c in ids[..i]
    {
      if i < |a| {
        assert ids[..i] == a[..i];
      } else {
        var x := b[i - |a|];
        assert x in b && x !in a by { assert x in Undisposed(g1); }
        assert ids[..i] == a + b[..i - |a|];
        assert g1.records[x] == g.records[x];
        if c in Undisposed(g1) { assert c in b[..i - |a|]; }
      }
    }
  }

  lemma {:induction false} DisposeChildrenFirst(fails: set<Cleanup>, g: Registry, id: Id, rank: Id -> nat)
    requires id !in g.parents && Ranked(g, rank)
    ensures ChildrenFirst(g, Order(fails, g, id))
    decreases Undisposed(g), 0, 0
  {
    if id in Undisposed(g) {
      var p := Prepare(g, id);
      var children := g.records[id].children;
      PrepareRecords(g, id);
      OrderUnfolds(fails, g, id);
      var below := set x | x in Undisposed(g) && rank(x) < rank(id);
      assert Ranked(p, rank);
      DisposeAllChildrenFirst(fails, p, children, rank);
      DisposeChildrenWithin(fails, p, children, below);
      DisposeChildrenClosure(fails, p, children);
      var before := OrderAll(fails, p, children);
      LastComesLast(g, p, id, before, rank);
    }
  }

  lemma LastComesLast(g: Registry, p: Registry, id: Id, before: seq<Id>, rank: Id -> nat)
    requires id in Undisposed(g) && Ranked(g, rank) && p.records == g.records[id := g.records[id].(disposed := true)]
    requires ChildrenFirst(p, before) && (forall x | x in before :: x in Undisposed(g) && rank(x) < rank(id))
    requires forall c | c in g.records[id].children && c in Undisposed(p) :: c in before
    ensures ChildrenFirst(g, before + [id])
  {
    var ids := before + [id];
    forall i, c | 0 <= i < |ids| && ids[i] in g.records && c in g.records[ids[i]].children && c in Undisposed(g)
      ensures c in ids[..i]
    {
      assert rank(c) < rank(ids[i]);
      if i < |before| {
        assert ids[i] in before && ids[..i] == before[..i];
        assert c in Undisposed(p) && c in p.records[ids[i]].children;
      } else {
        assert ids[..i] == before && c in Undisposed(p);
      }
    }
  }

  lemma {:induction false} DisposeAllChildrenFirst(fails: set<Cleanup>, g: Registry, children: seq<Id>, rank: Id -> nat)
    requires Ranked(g, rank)
    ensures ChildrenFirst(g, OrderAll(fails, g, children))
    decreases Undisposed(g), 1, |children|
  {
    if |children| > 0 {
      var last := children[|children| - 1];
      var rest := children[..|children| - 1];
      var g0 := g.(parents := g.parents - {last});
      var g1 := Dispose(fails, g0, last).0;
      OrderAllUnfolds(fails, g, children);
      FirstChildDisposed(fails, g, last);
      OtherChildrenDisposed(fails, g1, rest);
      assert Ranked(g0, rank) && Ranked(g1, rank);
      DisposeChildrenFirst(fails, g0, last, rank);
      DisposeAllChildrenFirst(fails, g1, rest, rank);
      ChildrenFirstJoin(g, g1, Order(fails, g0, last), OrderAll(fails, g1, rest));
    }
  }

  // ---- the theorem about one call

  /** What a record looks like once another one has been detached from its parent. */
  lemma DetachParts(g: Registry, id: Id)
    ensures var d := Detach(g, id);
            && d.records.Keys == g.records.Keys && Undisposed(d) == Undisposed(g)
            && d.parents == g.parents - {id} && d.log == g.log && d.finished == g.finished
            && d.listeners == g.listeners && d.roots == g.roots
            && (forall x | x in g.records ::
                  && d.records[x].(children := []) == g.records[x].(children := [])
                  && (forall c | c != id :: c in d.records[x].children <==> c in g.records[x].children)
                  && (forall c | c in d.records[x].children :: c in g.records[x].children))
  {
  }

  lemma DetachMarked(g: Registry, id: Id)
    requires id in g.records && (id in g.parents ==> g.parents[id] != id)
    ensures Detach(Mark(g, id), id) == Mark(Detach(g, id), id)
    ensures Detach(g, id).records[id] == g.records[id]
  {
    if id in g.parents && g.parents[id] in g.records && !g.records[g.parents[id]].disposed {
      var p := g.parents[id];
      assert Detach(Mark(g, id), id).records == Mark(Detach(g, id), id).records;
    }
  }

  lemma DetachTwice(g: Registry, id: Id)
    requires id !in g.parents
    ensures Detach(g, id) == g
  {
  }

  /** Detaching first makes no difference: a record is never its own parent. */
  lemma DetachFirst(fails: set<Cleanup>, g: Registry, id: Id)
    requires id in Undisposed(g) && (id in g.parents ==> g.parents[id] != id)
    ensures Dispose(fails, g, id) == Dispose(fails, Detach(g, id), id)
    ensures Order(fails, g, id) == Order(fails, Detach(g, id), id)
    ensures id !in Detach(g, id).parents && Undisposed(Detach(g, id)) == Undisposed(g)
  {
    var d := Detach(g, id);
    DetachParts(g, id);
    DetachMarked(g, id);
    DetachTwice(Mark(d, id), id);
    DisposeByPrepare(fails, g, d, id);
  }

  /** Disposal depends on the registry only through its prepared form. */
  lemma DisposeByPrepare(fails: set<Cleanup>, g1: Registry, g2: Registry, id: Id)
    requires id in Undisposed(g1) && id in Undisposed(g2) && Prepare(g1, id) == Prepare(g2, id)
    requires g1.records[id].children == g2.records[id].children
    ensures Dispose(fails, g1, id) == Dispose(fails, g2, id)
  {
  }

  lemma DetachedTheorem(fails: set<Cleanup>, g: Registry, id: Id)
    requires id in Undisposed(g) && (id in g.parents ==> g.parents[id] != id)
    ensures var (g', threw) := Dispose(fails, g, id);
            var ids := Order(fails, g, id);
            var d := Detach(g, id);
            && Takes(d, g', ids) && Cleans(fails, d, g', ids, threw) && KeepsOthers(d, g', ids)
            && id in ids && TakesChildren(d, ids)
            && id !in d.parents
  {
    DetachFirst(fails, g, id);
    DisposeExact(fails, Detach(g, id), id);
    DisposeClosure(fails, Detach(g, id), id);
  }

  lemma CleansSame(fails: set<Cleanup>, g: Registry, d: Registry, g': Registry, ids: seq<Id>, threw: bool)
    requires Cleans(fails, d, g', ids, threw) && d.log == g.log && d.records.Keys == g.records.Keys
    requires forall x | x in g.records :: Own(d.records[x]) == Own(g.records[x])
    ensures Cleans(fails, g, g', ids, threw)
  {
    OwnAllSame(d, g, ids);
  }

  /**
   * Main result: one call disposes the least set of records that holds the given one and is closed
   * under undisposed children, runs each of their cleanups once even when some throw, throws iff
   * one failed, and changes no other record except the parent that loses a child.
   */
  lemma DisposalTheorem(fails: set<Cleanup>, g: Registry, id: Id)
    requires id in Undisposed(g) && (id in g.parents ==> g.parents[id] != id)
    ensures var (g', threw) := Dispose(fails, g, id);
            var ids := Order(fails, g, id);
            && Takes(g, g', ids) && Cleans(fails, g, g', ids, threw)
            && KeepsOthers(Detach(g, id), g', ids)
            && id in ids && TakesChildren(g, ids)
    ensures forall bound: set<Id> | id in bound && ClosedUnderChildren(g, bound) ::
              forall x | x in Order(fails, g, id) :: x in bound
  {
    var d := Detach(g, id);
    var ids := Order(fails, g, id);
    DetachParts(g, id);
    DetachedTheorem(fails, g, id);
    var (g', threw) := Dispose(fails, g, id);
    forall x | x in g.records ensures Own(d.records[x]) == Own(g.records[x]) {
      assert d.records[x].(children := []) == g.records[x].(children := []);
    }
    CleansSame(fails, g, d, g', ids, threw);
    forall bound: set<Id> | id in bound && ClosedUnderChildren(g, bound)
      ensures forall x | x in ids :: x in bound
    {
      DetachFirst(fails, g, id);
      assert ClosedUnderChildren(d, bound);
      DisposeWithin(fails, d, id, bound);
    }
  }

  /** Main result: without a cycle of links every record goes after all the children it still has. */
  lemma DisposalOrder(fails: set<Cleanup>, g: Registry, id: Id, rank: Id -> nat)
    requires id in Undisposed(g) && (id in g.parents ==> g.parents[id] != id) && Ranked(g, rank)
    ensures ChildrenFirst(Detach(g, id), Order(fails, g, id))
  {
    DetachParts(g, id);
    DetachFirst(fails, g, id);
    assert Ranked(Detach(g, id), rank);
    DisposeChildrenFirst(fails, Detach(g, id), id, rank);
  }
}
