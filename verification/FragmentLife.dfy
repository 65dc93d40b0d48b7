/** The whole life of fragments: creation, linking, disposal, scope and root destruction, in any order. */
module FragmentLife {
  import opened Basics
  import opened Fragments

  datatype Event =
    | Create(id: Id, record: Record)
    | AddChild(parent: Id, child: Id)
    | AddDisposer(id: Id, cleanup: Cleanup)
    | AddAsyncWork(id: Id, cleanup: Cleanup)
    | RemoveAsyncWork(id: Id, cleanup: Cleanup)
    | DisposeFragment(id: Id)
    | DestroyScope(scope: Scope, rethrows: bool)
    | DestroyRoot(root: Root)

  /** `createCompiledFragmentRecord` and `registerCompiledFragmentRecord`; throws on a destroyed root. */
  function CreateStep(g: Registry, id: Id, r: Record): (Registry, bool) {
    if id in g.records || r.root in g.gone then (g, true) else
    var g1 := g.(records := g.records[id := r.(children := [], disposed := false)]);
    if !r.onRootScope then (g1.(listeners := g.listeners + [id]), false)
    else if r.root in g.roots then
      (g1.(roots := g.roots[r.root := g.roots[r.root].(members := g.roots[r.root].members + [id])]), false)
    else (g1.(roots := g.roots[r.root := RootState([id], false)]), false)
  }

  /** `addCompiledFragmentChild` */
  function AddChildStep(g: Registry, p: Id, c: Id): (Registry, bool) {
    if p == c then (g, false)
    else if p !in g.records || g.records[p].disposed then (g, true)
    else if c !in g.records || g.records[c].disposed then (g, true)
    else if g.records[p].root != g.records[c].root then (g, true)
    else if c in g.parents then (g, g.parents[c] != p)
    else
      var g1 := g.(records := g.records[p := g.records[p].(children := g.records[p].children + [c])],
                   parents := g.parents[c := p]);
      (Unlisten(g1, c), false)
  }

  function AddDisposerStep(g: Registry, id: Id, c: Cleanup): (Registry, bool) {
    if id !in g.records || g.records[id].disposed then (g, true)
    else (g.(records := g.records[id := g.records[id].(disposers := g.records[id].disposers + [c])]), false)
  }

  function AddAsyncWorkStep(g: Registry, id: Id, c: Cleanup): (Registry, bool) {
    if id !in g.records || g.records[id].disposed then (g, true)
    else (g.(records := g.records[id := g.records[id].(asyncWork := g.records[id].asyncWork + [c])]), false)
  }

  /** `removeCompiledFragmentAsyncWork` */
  function RemoveAsyncWorkStep(g: Registry, id: Id, c: Cleanup): Registry {
    if id !in g.records || g.records[id].disposed then g
    else g.(records := g.records[id := g.records[id].(asyncWork := RemoveFirst(g.records[id].asyncWork, c))])
  }

  /**
   * The `$destroy` listeners of a scope, in registration order; each forgets itself, then disposes. An exception goes
   * to the exception handler; if that rethrows, the listeners left do not fire and the scope is not destroyed.
   */
  function FireListeners(fails: set<Cleanup>, g: Registry, ids: seq<Id>, rethrows: bool): (Registry, bool)
    decreases |ids|
  {
    if |ids| == 0 then (g, false) else
    var (g1, threw) := Dispose(fails, Unlisten(g, ids[0]), ids[0]);
    if threw && rethrows then (g1, true) else FireListeners(fails, g1, ids[1..], rethrows)
  }

  function ListenersOf(g: Registry, ids: seq<Id>, scope: Scope): (r: seq<Id>)
    ensures forall x | x in r :: x in ids
    decreases |ids|
  {
    if |ids| == 0 then []
    else (if ids[0] in g.records && g.records[ids[0]].parentScope == scope then [ids[0]]
        else []) + ListenersOf(g, ids[1..], scope)
  }

  /** `disposeReverse` over the members of a root. */
  function DisposeBackwards(fails: set<Cleanup>, g: Registry, ids: seq<Id>): (Registry, bool)
    decreases |ids|
  {
    if |ids| == 0 then (g, false) else
    var (g1, t1) := Dispose(fails, g, ids[|ids| - 1]);
    var (g2, t2) := DisposeBackwards(fails, g1, ids[..|ids| - 1]);
    (g2, t1 || t2)
  }

  /** `disposeRootCompiledFragments`, and the root marked as destroyed. */
  function DestroyRootStep(fails: set<Cleanup>, g: Registry, root: Root): (Registry, bool) {
    var g0 := g.(gone := g.gone + {root});
    if root !in g.roots then (g0, false) else
    var members := g.roots[root].members;
    var g1 := g0.(roots := g.roots[root := RootState(members, true)]);
    var (g2, threw) := DisposeBackwards(fails, g1, members);
    (g2.(roots := g2.roots - {root}), threw)
  }

  function Step(fails: set<Cleanup>, g: Registry, e: Event): (Registry, bool) {
    match e
    case Create(id, r) => CreateStep(g, id, r)
    case AddChild(p, c) => AddChildStep(g, p, c)
    case AddDisposer(id, c) => AddDisposerStep(g, id, c)
    case AddAsyncWork(id, c) => AddAsyncWorkStep(g, id, c)
    case RemoveAsyncWork(id, c) => (RemoveAsyncWorkStep(g, id, c), false)
    case DisposeFragment(id) => Dispose(fails, g, id)
    case DestroyScope(scope, rethrows) => FireListeners(fails, g, ListenersOf(g, g.listeners, scope), rethrows)
    case DestroyRoot(root) => DestroyRootStep(fails, g, root)
  }

  function Run(fails: set<Cleanup>, g: Registry, events: seq<Event>): Registry
    decreases |events|
  {
    if |events| == 0 then g else Run(fails, Step(fails, g, events[0]).0, events[1..])
  }

  const EMPTY: Registry := Registry(map[], map[], [], map[], {}, [], [])

  // ---- what disposal releases besides the records

  ghost predicate ReleasesListeners(g: Registry, g': Registry, s: set<Id>) {
    forall y :: y in g'.listeners <==> y in g.listeners && y !in s
  }

  ghost predicate ReleasesParents(g: Registry, g': Registry, s: set<Id>) {
    && (forall y | y in g'.parents :: y in g.parents && g'.parents[y] == g.parents[y] && y !in s)
    && (forall y | y in g.parents && y in Undisposed(g) && y !in s :: y in g'.parents)
  }

  predicate Belongs(g: Registry, y: Id, r: Root) { y in g.records && g.records[y].root == r }

  ghost predicate ReleasesMembers(g: Registry, g': Registry, s: set<Id>) {
    && (forall r | r in g'.roots ::
          && r in g.roots && g'.roots[r].destroying == g.roots[r].destroying
          && (forall y :: y in g'.roots[r].members <==> y in g.roots[r].members && !(y in s && Belongs(g, y, r)))
          && (!g.roots[r].destroying && g.roots[r].members != [] ==> g'.roots[r].members != []))
    && (forall r | r in g.roots && r !in g'.roots ::
          !g.roots[r].destroying && forall y | y in g.roots[r].members :: y in s)
  }

  ghost predicate Releases(g: Registry, g': Registry, s: set<Id>) {
    && ReleasesListeners(g, g', s) && ReleasesParents(g, g', s) && ReleasesMembers(g, g', s)
    && g'.gone == g.gone
  }

  ghost predicate SameRoots(g: Registry, g': Registry) {
    g'.records.Keys == g.records.Keys && forall x | x in g.records :: g'.records[x].root == g.records[x].root
  }

  lemma ReleasesJoin(g: Registry, g1: Registry, g2: Registry, a: set<Id>, b: set<Id>)
    requires Releases(g, g1, a) && Releases(g1, g2, b) && SameRoots(g, g1)
    requires Undisposed(g) - a <= Undisposed(g1)
    ensures Releases(g, g2, a + b)
  {
    assert ReleasesMembers(g, g2, a + b) by {
      forall r | r in g.roots && r !in g2.roots
        ensures !g.roots[r].destroying && forall y | y in g.roots[r].members :: y in a + b
      {
        if r in g1.roots {
          forall y | y in g.roots[r].members ensures y in a + b {
            if y in g1.roots[r].members { assert y in b; }
          }
        }
      }
    }
  }

  lemma PrepareReleases(g: Registry, id: Id)
    requires id in g.records && id !in g.parents
    ensures Releases(g, Prepare(g, id), {id})
  {
    var p := Prepare(g, id);
    var root := g.records[id].root;
    assert p.roots == Unregister(Mark(g, id), id).roots;
  }

  lemma SameRootsPrepare(g: Registry, id: Id)
    requires id in g.records && id !in g.parents
    ensures SameRoots(g, Prepare(g, id))
  {
  }

  lemma FinishReleases(g: Registry, g1: Registry, id: Id, s: set<Id>)
    requires id in g1.records && Releases(g, g1, s) && SameRoots(g, g1)
    ensures Releases(g, Finish(g1, id), s) && SameRoots(g, Finish(g1, id))
  {
  }

  lemma UnlinkReleases(g: Registry, id: Id, g1: Registry, s: set<Id>)
    requires Releases(g.(parents := g.parents - {id}), g1, s) && (id in Undisposed(g) ==> id in s)
    ensures Releases(g, g1, s)
  {
    assert Undisposed(g.(parents := g.parents - {id})) == Undisposed(g);
  }

  /** The records that a disposal takes, as a set. */
  ghost function Taken(g: Registry, g': Registry): set<Id> { Undisposed(g) - Undisposed(g') }

  lemma {:induction false} DisposeReleases(fails: set<Cleanup>, g: Registry, id: Id)
    requires id !in g.parents
    ensures var g' := Dispose(fails, g, id).0;
            && Releases(g, g', Taken(g, g')) && SameRoots(g, g')
            && (id in Undisposed(g) ==> id in Taken(g, g'))
    decreases Undisposed(g), 0, 0
  {
    if id in Undisposed(g) {
      var p := Prepare(g, id);
      var children := g.records[id].children;
      var g1 := DisposeChildren(fails, p, children).0;
      PrepareReleases(g, id);
      SameRootsPrepare(g, id);
      DisposeChildrenReleases(fails, p, children);
      ReleasesJoin(g, p, g1, {id}, Taken(p, g1));
      FinishReleases(g, g1, id, {id} + Taken(p, g1));
      assert Taken(g, Finish(g1, id)) == {id} + Taken(p, g1);
    }
  }

  lemma {:induction false} DisposeChildrenReleases(fails: set<Cleanup>, g: Registry, children: seq<Id>)
    ensures var g' := DisposeChildren(fails, g, children).0;
            Releases(g, g', Taken(g, g')) && SameRoots(g, g')
    decreases Undisposed(g), 1, |children|
  {
    if |children| > 0 {
      var last := children[|children| - 1];
      var rest := children[..|children| - 1];
      var g0 := g.(parents := g.parents - {last});
      var g1 := Dispose(fails, g0, last).0;
      var g2 := DisposeChildren(fails, g1, rest).0;
      DisposeReleases(fails, g0, last);
      UnlinkReleases(g, last, g1, Taken(g0, g1));
      DisposeChildrenReleases(fails, g1, rest);
      TakenJoin(g, g0, g1, g2);
      ReleasesJoin(g, g1, g2, Taken(g0, g1), Taken(g1, g2));
    }
  }

  lemma TakenJoin(g: Registry, g0: Registry, g1: Registry, g2: Registry)
    requires g0.records == g.records && Undisposed(g1) <= Undisposed(g) && Undisposed(g2) <= Undisposed(g1)
    ensures Taken(g, g2) == Taken(g0, g1) + Taken(g1, g2)
    ensures Undisposed(g) - Taken(g0, g1) <= Undisposed(g1)
  {
    assert Undisposed(g0) == Undisposed(g);
  }

  // ---- the invariant

  ghost predicate LinksOk(g: Registry) {
    && (forall x | x in g.parents ::
          && x in Undisposed(g) && g.parents[x] in Undisposed(g) && g.parents[x] != x
          && x in g.records[g.parents[x]].children)
    && (forall p, c | p in Undisposed(g) && c in g.records[p].children :: c in g.parents && g.parents[c] == p)
    && (forall p | p in Undisposed(g) :: NoDuplicates(g.records[p].children))
  }

  /** `busy` is the root that is being destroyed, if any. */
  ghost predicate RootsOk(g: Registry, busy: set<Root>) {
    && (forall r | r in g.roots ::
          && (g.roots[r].destroying <==> r in busy)
          && (r in busy || g.roots[r].members != [])
          && (forall m | m in g.roots[r].members ::
              m in Undisposed(g) && g.records[m].root == r && g.records[m].onRootScope))
    && (forall x | x in Undisposed(g) && g.records[x].onRootScope ::
          g.records[x].root in g.roots && x in g.roots[g.records[x].root].members)
  }

  ghost predicate HeldOk(g: Registry) {
    && (forall x | x in g.listeners :: x in Undisposed(g) && !g.records[x].onRootScope && x !in g.parents)
    && (forall x | x in Undisposed(g) && !g.records[x].onRootScope :: x in g.listeners || x in g.parents)
  }

  ghost predicate Sound(g: Registry, busy: set<Root>) { LinksOk(g) && RootsOk(g, busy) && HeldOk(g) }

  /** Somebody is responsible for disposing the record. */
  ghost predicate Held(g: Registry, x: Id)
    requires x in g.records
  {
    || (g.records[x].root in g.roots && x in g.roots[g.records[x].root].members)
    || x in g.listeners
    || (x in g.parents && g.parents[x] in Undisposed(g) && x in g.records[g.parents[x]].children)
  }

  // ---- disposal keeps the invariant

  /** The set s of records has been disposed, starting from id; d is the registry with id detached. */
  ghost predicate Took(g: Registry, d: Registry, g': Registry, s: set<Id>, id: Id) {
    && id in s && s <= Undisposed(g) && Undisposed(g') == Undisposed(g) - s
    && (forall x, c | x in s && c in g.records[x].children && c in Undisposed(g) :: c in s)
    && (forall c | c in s && c != id :: c in g.parents && g.parents[c] in s)
    && g'.records.Keys == g.records.Keys == d.records.Keys
    && (forall x | x in g.records && x !in s :: g'.records[x] == d.records[x])
  }

  lemma DisposalSet(fails: set<Cleanup>, g: Registry, id: Id)
    requires LinksOk(g) && id in Undisposed(g)
    ensures var g' := Dispose(fails, g, id).0;
            var s := Taken(g, g');
            && s == (set x | x in Order(fails, g, id)) && id in s && s <= Undisposed(g)
            && Undisposed(g') == Undisposed(g) - s
            && (forall x, c | x in s && c in g.records[x].children && c in Undisposed(g) :: c in s)
            && KeepsOthers(Detach(g, id), g', Order(fails, g, id))
  {
    DisposalTheorem(fails, g, id);
    TakenAre(g, Dispose(fails, g, id).0, Order(fails, g, id));
  }

  lemma TakenAre(g: Registry, g': Registry, ids: seq<Id>)
    requires Takes(g, g', ids)
    ensures Taken(g, g') == set x | x in ids
    ensures Taken(g, g') <= Undisposed(g) && Undisposed(g') == Undisposed(g) - Taken(g, g')
  {
  }

  lemma DisposalLeast(fails: set<Cleanup>, g: Registry, id: Id, bound: set<Id>)
    requires LinksOk(g) && id in Undisposed(g) && id in bound && ClosedUnderChildren(g, bound)
    ensures Taken(g, Dispose(fails, g, id).0) <= bound
  {
    DisposalTheorem(fails, g, id);
    DisposalSet(fails, g, id);
  }

  lemma DisposalReleases(fails: set<Cleanup>, g: Registry, id: Id)
    requires LinksOk(g) && id in Undisposed(g)
    ensures Releases(Detach(g, id), Dispose(fails, g, id).0, Taken(g, Dispose(fails, g, id).0))
  {
    DetachParts(g, id);
    DetachFirst(fails, g, id);
    DisposeReleases(fails, Detach(g, id), id);
  }

  lemma OrphanLeavesClosed(g: Registry, s: set<Id>, c: Id)
    requires LinksOk(g) && s <= Undisposed(g)
    requires forall x, y | x in s && y in g.records[x].children && y in Undisposed(g) :: y in s
    requires c in g.parents ==> g.parents[c] !in s
    ensures ClosedUnderChildren(g, s - {c})
  {
  }

  /** A record other than the first is only disposed because its parent is. */
  lemma TakenThroughParent(fails: set<Cleanup>, g: Registry, id: Id, c: Id)
    requires LinksOk(g) && id in Undisposed(g) && c != id && c in Taken(g, Dispose(fails, g, id).0)
    ensures c in g.parents && g.parents[c] in Taken(g, Dispose(fails, g, id).0)
  {
    DisposalSet(fails, g, id);
    var s := Taken(g, Dispose(fails, g, id).0);
    if c !in g.parents || g.parents[c] !in s {
      OrphanLeavesClosed(g, s, c);
      DisposalLeast(fails, g, id, s - {c});
    }
  }

  lemma DisposeTook(fails: set<Cleanup>, g: Registry, id: Id)
    requires LinksOk(g) && id in Undisposed(g)
    ensures var d := Detach(g, id);
            var g' := Dispose(fails, g, id).0;
            var s := Taken(g, g');
            Took(g, d, g', s, id) && Releases(d, g', s)
  {
    var g' := Dispose(fails, g, id).0;
    var s := Taken(g, g');
    DisposalSet(fails, g, id);
    DisposalReleases(fails, g, id);
    DetachParts(g, id);
    forall c | c in s && c != id ensures c in g.parents && g.parents[c] in s {
      TakenThroughParent(fails, g, id, c);
    }
  }

  lemma RemoveOnly(s: seq<Id>, x: Id)
    requires NoDuplicates(s)
    ensures x !in RemoveFirst(s, x) && NoDuplicates(RemoveFirst(s, x))
    decreases |s|
  {
    if |s| > 0 && s[0] != x {
      RemoveOnly(s[1..], x);
      assert s[0] !in s[1..];
      var r := RemoveFirst(s[1..], x);
      forall i, j | 0 <= i < j < |[s[0]] + r| ensures ([s[0]] + r)[i] != ([s[0]] + r)[j] {
        if i == 0 { assert r[j - 1] in r; }
      }
    } else if |s| > 0 {
      assert s[0] !in s[1..];
    }
  }

  /** After detaching, the children of the others are what they were, less the detached record. */
  lemma DetachedChildren(g: Registry, id: Id)
    requires LinksOk(g) && id in Undisposed(g)
    ensures var d := Detach(g, id);
            forall p | p in Undisposed(g) ::
              && NoDuplicates(d.records[p].children)
              && d.records[p].(children := []) == g.records[p].(children := [])
              && forall c :: c in d.records[p].children <==> c in g.records[p].children && c != id
  {
    DetachParts(g, id);
    if id in g.parents { RemoveOnly(g.records[g.parents[id]].children, id); }
  }

  lemma LinksKept(g: Registry, d: Registry, g': Registry, s: set<Id>, id: Id)
    requires LinksOk(g) && Took(g, d, g', s, id) && d == Detach(g, id) && ReleasesParents(d, g', s)
    ensures LinksOk(g')
  {
    forall x | x in g'.parents
      ensures x in Undisposed(g') && g'.parents[x] in Undisposed(g') && g'.parents[x] != x
      ensures x in g'.records[g'.parents[x]].children
    {
      ParentKept(g, d, g', s, id, x);
    }
    forall p, c | p in Undisposed(g') && c in g'.records[p].children
      ensures c in g'.parents && g'.parents[c] == p
    {
      ChildKept(g, d, g', s, id, p, c);
    }
    forall p | p in Undisposed(g') ensures NoDuplicates(g'.records[p].children) {
      ListKept(g, d, g', s, id, p);
    }
  }

  lemma ListKept(g: Registry, d: Registry, g': Registry, s: set<Id>, id: Id, p: Id)
    requires LinksOk(g) && Took(g, d, g', s, id) && d == Detach(g, id) && p in Undisposed(g')
    ensures NoDuplicates(g'.records[p].children)
  {
    DetachedChildren(g, id);
    assert p in Undisposed(g) && g'.records[p] == d.records[p];
  }

  lemma ParentKept(g: Registry, d: Registry, g': Registry, s: set<Id>, id: Id, x: Id)
    requires LinksOk(g) && Took(g, d, g', s, id) && d == Detach(g, id) && ReleasesParents(d, g', s) && x in g'.parents
    ensures x in Undisposed(g') && g'.parents[x] in Undisposed(g') && g'.parents[x] != x
    ensures x in g'.records[g'.parents[x]].children
  {
    DetachParts(g, id);
    DetachedChildren(g, id);
    var p := g.parents[x];
    assert x in g.parents && g'.parents[x] == p && x !in s;
    assert p !in s;
  }

  lemma ChildKept(g: Registry, d: Registry, g': Registry, s: set<Id>, id: Id, p: Id, c: Id)
    requires LinksOk(g) && Took(g, d, g', s, id) && d == Detach(g, id) && ReleasesParents(d, g', s)
    requires p in Undisposed(g') && c in g'.records[p].children
    ensures c in g'.parents && g'.parents[c] == p
  {
    DetachParts(g, id);
    DetachedChildren(g, id);
    assert p in Undisposed(g) && c in g.records[p].children && c != id;
    NotTaken(g, d, g', s, id, p, c);
    assert c in d.parents && d.parents[c] == p && c in Undisposed(d);
  }

  /** A child of a record that is left over is left over. */
  lemma NotTaken(g: Registry, d: Registry, g': Registry, s: set<Id>, id: Id, p: Id, c: Id)
    requires LinksOk(g) && Took(g, d, g', s, id) && p in Undisposed(g') && c in g.records[p].children && c != id
    ensures p in Undisposed(g) && c in g.parents && g.parents[c] == p && p !in s && c !in s
  {
    assert p in Undisposed(g);
  }

  lemma RootsKept(g: Registry, d: Registry, g': Registry, s: set<Id>, id: Id, busy: set<Root>)
    requires RootsOk(g, busy) && Took(g, d, g', s, id) && d == Detach(g, id) && Releases(d, g', s)
    ensures RootsOk(g', busy)
  {
    DetachParts(g, id);
    forall x | x in g.records
      ensures d.records[x].root == g.records[x].root && d.records[x].onRootScope == g.records[x].onRootScope
    {
      assert d.records[x].(children := []) == g.records[x].(children := []);
    }
    forall r, m | r in g'.roots && m in g'.roots[r].members
      ensures m in Undisposed(g') && g'.records[m].root == r && g'.records[m].onRootScope
    {
      assert m in g.roots[r].members;
      assert Belongs(d, m, r);
    }
  }

  lemma HeldKept(g: Registry, d: Registry, g': Registry, s: set<Id>, id: Id)
    requires HeldOk(g) && Took(g, d, g', s, id) && d == Detach(g, id) && Releases(d, g', s)
    ensures HeldOk(g')
  {
    DetachParts(g, id);
    forall x | x in g.records ensures d.records[x].onRootScope == g.records[x].onRootScope {
      assert d.records[x].(children := []) == g.records[x].(children := []);
    }
  }

  lemma DisposeSound(fails: set<Cleanup>, g: Registry, id: Id, busy: set<Root>)
    requires Sound(g, busy)
    ensures var g' := Dispose(fails, g, id).0;
            Sound(g', busy) && Undisposed(g') <= Undisposed(g) && id !in Undisposed(g')
            && (forall r | r in g'.roots :: r in g.roots)
  {
    if id in Undisposed(g) {
      DisposeTook(fails, g, id);
      DetachParts(g, id);
      var g' := Dispose(fails, g, id).0;
      LinksKept(g, Detach(g, id), g', Taken(g, g'), id);
      RootsKept(g, Detach(g, id), g', Taken(g, g'), id, busy);
      HeldKept(g, Detach(g, id), g', Taken(g, g'), id);
    }
  }

  // ---- the other steps

  lemma CreateSound(g: Registry, id: Id, r: Record)
    requires Sound(g, {})
    ensures Sound(CreateStep(g, id, r).0, {})
  {
    if id !in g.records && r.root !in g.gone {
      CreateLinks(g, id, r);
      CreateRoots(g, id, r);
      CreateHeld(g, id, r);
    }
  }

  lemma CreateLinks(g: Registry, id: Id, r: Record)
    requires id !in g.records && r.root !in g.gone && LinksOk(g)
    ensures LinksOk(CreateStep(g, id, r).0)
  {
    CreateParts(g, id, r);
    var g' := CreateStep(g, id, r).0;
    forall p, c | p in Undisposed(g') && c in g'.records[p].children ensures c in g'.parents && g'.parents[c] == p {
      assert p != id && p in Undisposed(g);
    }
  }

  lemma CreateHeld(g: Registry, id: Id, r: Record)
    requires id !in g.records && r.root !in g.gone && LinksOk(g) && HeldOk(g)
    ensures HeldOk(CreateStep(g, id, r).0)
  {
    CreateParts(g, id, r);
    assert id !in g.parents && id !in g.listeners;
  }

  lemma CreateParts(g: Registry, id: Id, r: Record)
    requires id !in g.records && r.root !in g.gone
    ensures var g' := CreateStep(g, id, r).0;
            && Undisposed(g') == Undisposed(g) + {id}
            && (forall x | x in g.records :: g'.records[x] == g.records[x])
            && g'.records[id] == r.(children := [], disposed := false)
            && g'.parents == g.parents
  {
  }

  lemma CreateRoots(g: Registry, id: Id, r: Record)
    requires id !in g.records && r.root !in g.gone && RootsOk(g, {})
    ensures RootsOk(CreateStep(g, id, r).0, {})
  {
    CreateParts(g, id, r);
    var g' := CreateStep(g, id, r).0;
    forall q, m | q in g'.roots && m in g'.roots[q].members
      ensures m in Undisposed(g') && g'.records[m].root == q && g'.records[m].onRootScope
    {
      if m != id { assert q in g.roots && m in g.roots[q].members; }
    }
  }

  lemma AddChildSound(g: Registry, p: Id, c: Id)
    requires Sound(g, {})
    ensures Sound(AddChildStep(g, p, c).0, {})
  {
    var g' := AddChildStep(g, p, c).0;
    if g' != g {
      AddChildParts(g, p, c);
      AddChildLinks(g, p, c);
      AddChildRoots(g, p, c);
      AddChildHeld(g, p, c);
    }
  }

  lemma AddChildRoots(g: Registry, p: Id, c: Id)
    requires RootsOk(g, {}) && AddChildStep(g, p, c).0 != g
    ensures RootsOk(AddChildStep(g, p, c).0, {})
  {
    AddChildParts(g, p, c);
    var g' := AddChildStep(g, p, c).0;
    assert forall x | x in Undisposed(g) ::
             g'.records[x].root == g.records[x].root && g'.records[x].onRootScope == g.records[x].onRootScope;
  }

  lemma AddChildHeld(g: Registry, p: Id, c: Id)
    requires HeldOk(g) && AddChildStep(g, p, c).0 != g
    ensures HeldOk(AddChildStep(g, p, c).0)
  {
    AddChildParts(g, p, c);
    var g' := AddChildStep(g, p, c).0;
    assert forall x | x in Undisposed(g) :: g'.records[x].onRootScope == g.records[x].onRootScope;
  }

  lemma AddChildParts(g: Registry, p: Id, c: Id)
    requires AddChildStep(g, p, c).0 != g
    ensures var g' := AddChildStep(g, p, c).0;
            && p in Undisposed(g) && c in Undisposed(g) && p != c && c !in g.parents
            && Undisposed(g') == Undisposed(g) && g'.records.Keys == g.records.Keys
            && (forall x | x in g.records && x != p :: g'.records[x] == g.records[x])
            && g'.records[p] == g.records[p].(children := g.records[p].children + [c])
            && g'.parents == g.parents[c := p] && g'.roots == g.roots
            && (forall y :: y in g'.listeners <==> y in g.listeners && y != c)
  {
  }

  lemma AddChildLinks(g: Registry, p: Id, c: Id)
    requires LinksOk(g) && AddChildStep(g, p, c).0 != g
    ensures LinksOk(AddChildStep(g, p, c).0)
  {
    AddChildParts(g, p, c);
    var g' := AddChildStep(g, p, c).0;
    assert c !in g.records[p].children;
    NoDuplicatesJoin(g.records[p].children, [c]);
    forall x | x in g'.parents
      ensures x in Undisposed(g') && g'.parents[x] in Undisposed(g') && g'.parents[x] != x
      ensures x in g'.records[g'.parents[x]].children
    {
      AddChildParent(g, p, c, x);
    }
    forall q, y | q in Undisposed(g') && y in g'.records[q].children ensures y in g'.parents && g'.parents[y] == q {
      AddChildListed(g, p, c, q, y);
    }
  }

  lemma AddChildParent(g: Registry, p: Id, c: Id, x: Id)
    requires LinksOk(g) && AddChildStep(g, p, c).0 != g && x in AddChildStep(g, p, c).0.parents
    ensures var g' := AddChildStep(g, p, c).0;
            && x in Undisposed(g') && g'.parents[x] in Undisposed(g') && g'.parents[x] != x
            && x in g'.records[g'.parents[x]].children
  {
    AddChildParts(g, p, c);
    if x != c { assert x in g.records[g.parents[x]].children; }
  }

  lemma AddChildListed(g: Registry, p: Id, c: Id, q: Id, y: Id)
    requires LinksOk(g) && AddChildStep(g, p, c).0 != g
    requires q in Undisposed(AddChildStep(g, p, c).0) && y in AddChildStep(g, p, c).0.records[q].children
    ensures y in AddChildStep(g, p, c).0.parents && AddChildStep(g, p, c).0.parents[y] == q
  {
    AddChildParts(g, p, c);
    if q != p || y != c { assert y in g.records[q].children; }
  }

  lemma {:induction false} WithoutTwice(s: seq<Id>, x: Id)
    ensures Without(Without(s, x), x) == Without(s, x)
    decreases |s|
  {
    if |s| > 0 {
      var w := Without(s[1..], x);
      WithoutTwice(s[1..], x);
      if s[0] != x {
        assert Without(s, x) == [s[0]] + w && ([s[0]] + w)[1..] == w;
      } else {
        assert Without(s, x) == w;
      }
    }
  }

  lemma {:induction false} WithoutAbsent(s: seq<Id>, x: Id)
    requires x !in s
    ensures Without(s, x) == s
    decreases |s|
  {
    if |s| > 0 {
      assert x !in s[1..] && s[0] != x;
      WithoutAbsent(s[1..], x);
    }
  }

  lemma MarkUnlistened(g: Registry, l: seq<Id>, id: Id)
    requires id in g.records
    ensures Mark(g.(listeners := l), id) == Mark(g, id).(listeners := l)
  {
  }

  lemma DetachUnlistened(g: Registry, l: seq<Id>, id: Id)
    ensures Detach(g.(listeners := l), id) == Detach(g, id).(listeners := l)
  {
  }

  lemma UnregisterUnlistened(g: Registry, l: seq<Id>, id: Id)
    requires id in g.records
    ensures Unregister(g.(listeners := l), id) == Unregister(g, id).(listeners := l)
  {
  }

  lemma PrepareUnlistened(g: Registry, id: Id)
    requires id in g.records
    ensures Prepare(Unlisten(g, id), id) == Prepare(g, id)
  {
    var l := Without(g.listeners, id);
    WithoutTwice(g.listeners, id);
    MarkUnlistened(g, l, id);
    DetachUnlistened(Mark(g, id), l, id);
    UnregisterUnlistened(Detach(Mark(g, id), id), l, id);
    var u := Unregister(Detach(Mark(g, id), id), id);
    assert u.listeners == g.listeners;
    assert Unlisten(u.(listeners := l), id) == Unlisten(u, id);
  }

  /** A listener that forgets itself before it disposes changes nothing. */
  lemma UnlistenFirst(fails: set<Cleanup>, g: Registry, id: Id)
    requires HeldOk(g)
    ensures Dispose(fails, Unlisten(g, id), id) == Dispose(fails, g, id)
  {
    if id in Undisposed(g) {
      var u := Unlisten(g, id);
      PrepareUnlistened(g, id);
      DisposeByPrepare(fails, u, g, id);
    } else {
      WithoutAbsent(g.listeners, id);
      assert Unlisten(g, id) == g;
    }
  }

  /** Unless an exception ends it, a scope's destruction disposes every record that listens to it. */
  lemma {:induction false} FireSound(fails: set<Cleanup>, g: Registry, ids: seq<Id>, rethrows: bool)
    requires Sound(g, {})
    ensures var (g', threw) := FireListeners(fails, g, ids, rethrows);
            && Sound(g', {}) && Undisposed(g') <= Undisposed(g)
            && (threw ==> rethrows) && (!threw ==> forall x | x in ids :: x !in Undisposed(g'))
    decreases |ids|
  {
    if |ids| > 0 {
      UnlistenFirst(fails, g, ids[0]);
      DisposeSound(fails, g, ids[0], {});
      FireSound(fails, Dispose(fails, g, ids[0]).0, ids[1..], rethrows);
    }
  }

  lemma {:induction false} BackwardsSound(fails: set<Cleanup>, g: Registry, ids: seq<Id>, busy: set<Root>)
    requires Sound(g, busy)
    ensures var g' := DisposeBackwards(fails, g, ids).0;
            Sound(g', busy) && Undisposed(g') <= Undisposed(g) && (forall x | x in ids :: x !in Undisposed(g'))
            && (forall r | r in g'.roots :: r in g.roots)
    decreases |ids|
  {
    if |ids| > 0 {
      DisposeSound(fails, g, ids[|ids| - 1], busy);
      BackwardsSound(fails, Dispose(fails, g, ids[|ids| - 1]).0, ids[..|ids| - 1], busy);
    }
  }

  /** Destroying a root leaves no undisposed record on its scope. */
  lemma DestroyRootSound(fails: set<Cleanup>, g: Registry, root: Root)
    requires Sound(g, {})
    ensures var g' := DestroyRootStep(fails, g, root).0;
            && Sound(g', {})
            && (forall x | x in Undisposed(g') && g'.records[x].onRootScope :: g'.records[x].root != root)
  {
    if root in g.roots {
      var members := g.roots[root].members;
      var g1 := g.(gone := g.gone + {root}, roots := g.roots[root := RootState(members, true)]);
      assert Undisposed(g1) == Undisposed(g);
      assert Sound(g1, {root});
      BackwardsSound(fails, g1, members, {root});
      BackwardsMembers(fails, g1, members, {root});
      ForgetRoot(DisposeBackwards(fails, g1, members).0, root, members);
    }
  }

  lemma ForgetRoot(g: Registry, root: Root, members: seq<Id>)
    requires Sound(g, {root}) && (forall x | x in members :: x !in Undisposed(g))
    requires root in g.roots ==> forall m | m in g.roots[root].members :: m in members
    ensures var g' := g.(roots := g.roots - {root});
            && Sound(g', {})
            && (forall x | x in Undisposed(g') && g'.records[x].onRootScope :: g'.records[x].root != root)
  {
    var g' := g.(roots := g.roots - {root});
    assert Undisposed(g') == Undisposed(g);
  }

  /** The members of a root only ever shrink while others are disposed. */
  lemma {:induction false} BackwardsMembers(fails: set<Cleanup>, g: Registry, ids: seq<Id>, busy: set<Root>)
    requires Sound(g, busy)
    ensures var g' := DisposeBackwards(fails, g, ids).0;
            forall r | r in g'.roots :: r in g.roots && forall m | m in g'.roots[r].members :: m in g.roots[r].members
    decreases |ids|
  {
    if |ids| > 0 {
      var last := ids[|ids| - 1];
      DisposeSound(fails, g, last, busy);
      if last in Undisposed(g) {
        DisposeTook(fails, g, last);
        DetachParts(g, last);
      }
      BackwardsMembers(fails, Dispose(fails, g, last).0, ids[..|ids| - 1], busy);
    }
  }

  lemma SameShapeSound(g: Registry, g': Registry)
    requires Sound(g, {}) && g' == g.(records := g'.records) && g'.records.Keys == g.records.Keys
    requires forall x | x in g.records ::
               g'.records[x] == g.records[x].(disposers := g'.records[x].disposers,
                   asyncWork := g'.records[x].asyncWork)
    ensures Sound(g', {})
  {
    assert Undisposed(g') == Undisposed(g);
  }

  lemma AddDisposerSound(g: Registry, id: Id, c: Cleanup)
    requires Sound(g, {})
    ensures Sound(AddDisposerStep(g, id, c).0, {})
  {
    if id in g.records && !g.records[id].disposed {
      var g' := g.(records := g.records[id := g.records[id].(disposers := g.records[id].disposers + [c])]);
      assert AddDisposerStep(g, id, c).0 == g';
      assert forall x | x in g.records :: g'.records[x] == g.records[x].(disposers := g'.records[x].disposers);
      SameShapeSound(g, g');
    }
  }

  lemma AsyncWorkSound(g: Registry, id: Id, work: seq<Cleanup>)
    requires Sound(g, {}) && id in g.records
    ensures Sound(g.(records := g.records[id := g.records[id].(asyncWork := work)]), {})
  {
    var g' := g.(records := g.records[id := g.records[id].(asyncWork := work)]);
    assert forall x | x in g.records :: g'.records[x] == g.records[x].(asyncWork := g'.records[x].asyncWork);
    SameShapeSound(g, g');
  }

  lemma StepSound(fails: set<Cleanup>, g: Registry, e: Event)
    requires Sound(g, {})
    ensures Sound(Step(fails, g, e).0, {})
  {
    match e
    case Create(id, r) => CreateSound(g, id, r);
    case AddChild(p, c) => AddChildSound(g, p, c);
    case AddDisposer(id, c) => AddDisposerSound(g, id, c);
    case AddAsyncWork(id, c) =>
      if id in g.records { AsyncWorkSound(g, id, g.records[id].asyncWork + [c]); }
    case RemoveAsyncWork(id, c) =>
      if id in g.records { AsyncWorkSound(g, id, RemoveFirst(g.records[id].asyncWork, c)); }
    case DisposeFragment(id) => DisposeSound(fails, g, id, {});
    case DestroyScope(scope, rethrows) => FireSound(fails, g, ListenersOf(g, g.listeners, scope), rethrows);
    case DestroyRoot(root) => DestroyRootSound(fails, g, root);
  }

  lemma {:induction false} RunSound(fails: set<Cleanup>, g: Registry, events: seq<Event>)
    requires Sound(g, {})
    ensures Sound(Run(fails, g, events), {})
    decreases |events|
  {
    if |events| > 0 {
      StepSound(fails, g, events[0]);
      RunSound(fails, Step(fails, g, events[0]).0, events[1..]);
    }
  }

  /**
   * Main result: in every reachable state each undisposed record is in its root's set, has a live
   * scope listener, or is listed by a live parent; root sets are non-empty and hold only such
   * records; parent links and child lists mirror each other.
   */
  lemma NoOrphans(fails: set<Cleanup>, events: seq<Event>)
    ensures var g := Run(fails, EMPTY, events);
            && Sound(g, {})
            && (forall x | x in Undisposed(g) :: Held(g, x))
  {
    RunSound(fails, EMPTY, events);
  }
}
