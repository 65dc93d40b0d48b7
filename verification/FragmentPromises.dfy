/**
 * What the registry promises its callers: when a registration is refused, and that one which was accepted is
 * honoured by whatever ends the record's life (src/core/compile/incremental-fragment.ts).
 */
module FragmentPromises {
  import opened Basics
  import opened Fragments
  import opened FragmentLife
  import FragmentHolders

  // ---- when a registration throws, and what it changes

  /** What makes `addCompiledFragmentChild` throw, known before the call. */
  predicate Refused(g: Registry, p: Id, c: Id) {
    p != c && (
      || p !in Undisposed(g) || c !in Undisposed(g)
      || g.records[p].root != g.records[c].root
      || (c in g.parents && g.parents[c] != p))
  }

  /** The record `p` lists `c` behind its other children, and nothing else about the records changes. */
  ghost predicate Linked(g: Registry, g': Registry, p: Id, c: Id)
    requires p in g.records
  {
    && g'.records == g.records[p := g.records[p].(children := g.records[p].children + [c])]
    && g'.parents == g.parents[c := p] && g'.roots == g.roots && g'.gone == g.gone && g'.log == g.log
    && (forall x :: x in g'.listeners <==> x in g.listeners && x != c)
  }

  /** Linking throws iff it is refused; a child that has a parent or is the parent itself changes nothing. */
  lemma AddChildThrowsIff(fails: set<Cleanup>, g: Registry, p: Id, c: Id)
    ensures var (g', threw) := Step(fails, g, AddChild(p, c));
            && (threw <==> Refused(g, p, c))
            && (threw || p == c || c in g.parents ==> g' == g)
            && (!threw && p != c && c !in g.parents ==> Linked(g, g', p, c))
  {
  }

  /**
   * Registering cleanups throws iff the record is not live; else the list grows at its end and nothing else changes.
   */
  lemma RegisterThrowsIff(fails: set<Cleanup>, g: Registry, id: Id, c: Cleanup)
    ensures var (g', threw) := Step(fails, g, AddDisposer(id, c));
            && (threw <==> id !in Undisposed(g))
            && g' == if threw then g else
                g.(records := g.records[id := g.records[id].(disposers := g.records[id].disposers + [c])])
    ensures var (g', threw) := Step(fails, g, AddAsyncWork(id, c));
            && (threw <==> id !in Undisposed(g))
            && g' == if threw then g else
                g.(records := g.records[id := g.records[id].(asyncWork := g.records[id].asyncWork + [c])])
  {
  }

  lemma {:induction false} RemovesTheFirst(s: seq<Cleanup>, c: Cleanup, i: nat)
    requires i < |s| && s[i] == c && c !in s[..i]
    ensures RemoveFirst(s, c) == s[..i] + s[i + 1..]
    decreases |s|
  {
    if i > 0 {
      assert s[0] in s[..i];
      assert s[1..][..i - 1] == s[..i][1..] && s[1..][i..] == s[i + 1..];
      RemovesTheFirst(s[1..], c, i - 1);
    }
  }

  /** Work taken back from a live record is its first registration, and only that one. */
  lemma TakenBack(fails: set<Cleanup>, g: Registry, id: Id, c: Cleanup, i: nat)
    requires id in Undisposed(g)
    requires var s := g.records[id].asyncWork; i < |s| && s[i] == c && c !in s[..i]
    ensures var s := g.records[id].asyncWork;
            Step(fails, g, RemoveAsyncWork(id, c))
            == (g.(records := g.records[id := g.records[id].(asyncWork := s[..i] + s[i + 1..])]), false)
  {
    RemovesTheFirst(g.records[id].asyncWork, c, i);
  }

  // ---- what every disposal keeps

  predicate Registered(r: Record, c: Cleanup) {
    c in r.asyncWork || c in r.disposers || c in r.childScopes
  }

  /** The cleanup ran after the first `n` ones. */
  ghost predicate RanSince(n: nat, log: seq<Cleanup>, c: Cleanup) {
    exists i | n <= i < |log| :: log[i] == c
  }

  /** Records that stay keep their lists and their parents; those that go have all their cleanups run. */
  ghost predicate Honours(g: Registry, g': Registry) {
    && g'.records.Keys == g.records.Keys && Undisposed(g') <= Undisposed(g) && g.log <= g'.log
    && (forall x | x in Undisposed(g') :: g'.records[x].(children := []) == g.records[x].(children := []))
    && (forall x | x in g'.parents :: x in g.parents && g'.parents[x] == g.parents[x])
    && (forall x | x in g.parents && x in Undisposed(g') :: x in g'.parents)
    && (forall x, c | x in Undisposed(g) && x !in Undisposed(g') && Registered(g.records[x], c) ::
          RanSince(|g.log|, g'.log, c))
  }

  lemma RanStill(n: nat, m: nat, log: seq<Cleanup>, log': seq<Cleanup>, c: Cleanup)
    requires n <= m && log <= log' && RanSince(m, log, c)
    ensures RanSince(n, log', c)
  {
    var i :| m <= i < |log| && log[i] == c;
    assert log'[i] == c;
  }

  lemma SameLists(r: Record, r': Record, c: Cleanup)
    requires r'.(children := []) == r.(children := [])
    ensures Registered(r', c) <==> Registered(r, c)
  {
    var s, s' := r.(children := []), r'.(children := []);
    assert s.asyncWork == s'.asyncWork && s.disposers == s'.disposers && s.childScopes == s'.childScopes;
  }

  lemma HonoursJoin(g: Registry, g1: Registry, g2: Registry)
    requires Honours(g, g1) && Honours(g1, g2)
    ensures Honours(g, g2)
  {
    forall x, c | x in Undisposed(g) && x !in Undisposed(g2) && Registered(g.records[x], c)
      ensures RanSince(|g.log|, g2.log, c)
    {
      if x in Undisposed(g1) {
        SameLists(g.records[x], g1.records[x], c);
        RanStill(|g.log|, |g1.log|, g2.log, g2.log, c);
      } else {
        RanStill(|g.log|, |g.log|, g1.log, g2.log, c);
      }
    }
  }

  lemma InReversed(s: seq<Cleanup>, c: Cleanup)
    requires c in s
    ensures c in Reversed(s)
  {
    var i :| 0 <= i < |s| && s[i] == c;
    assert Reversed(s)[|s| - 1 - i] == c;
  }

  lemma {:induction false} OwnAllHolds(g: Registry, ids: seq<Id>, x: Id, c: Cleanup)
    requires x in ids && (forall y | y in ids :: y in g.records) && Registered(g.records[x], c)
    ensures c in OwnAll(g, ids)
    decreases |ids|
  {
    var rest, last := ids[..|ids| - 1], ids[|ids| - 1];
    assert ids == rest + [last];
    if x == last {
      var r := g.records[x];
      if c in r.asyncWork { InReversed(r.asyncWork, c); }
      if c in r.disposers { InReversed(r.disposers, c); }
      if c in r.childScopes { InReversed(r.childScopes, c); }
    } else {
      OwnAllHolds(g, rest, x, c);
    }
  }

  lemma RanInSuffix(before: seq<Cleanup>, s: seq<Cleanup>, c: Cleanup)
    requires c in s
    ensures RanSince(|before|, before + s, c)
  {
    var i :| 0 <= i < |s| && s[i] == c;
    assert (before + s)[|before| + i] == c;
  }

  lemma DisposeHonours(fails: set<Cleanup>, g: Registry, id: Id)
    requires LinksOk(g)
    ensures Honours(g, Dispose(fails, g, id).0)
  {
    if id in Undisposed(g) {
      var (g', threw) := Dispose(fails, g, id);
      var ids := Order(fails, g, id);
      DisposalTheorem(fails, g, id);
      DisposeTook(fails, g, id);
      DetachParts(g, id);
      forall x, c | x in Undisposed(g) && x !in Undisposed(g') && Registered(g.records[x], c)
        ensures RanSince(|g.log|, g'.log, c)
      {
        OwnAllHolds(g, ids, x, c);
        RanInSuffix(g.log, OwnAll(g, ids), c);
      }
    }
  }

  lemma {:induction false} FireHonours(fails: set<Cleanup>, g: Registry, ids: seq<Id>, rethrows: bool)
    requires Sound(g, {})
    ensures Honours(g, FireListeners(fails, g, ids, rethrows).0)
    decreases |ids|
  {
    if |ids| > 0 {
      var g1 := Dispose(fails, g, ids[0]).0;
      UnlistenFirst(fails, g, ids[0]);
      DisposeSound(fails, g, ids[0], {});
      DisposeHonours(fails, g, ids[0]);
      FireHonours(fails, g1, ids[1..], rethrows);
      HonoursJoin(g, g1, FireListeners(fails, g1, ids[1..], rethrows).0);
    }
  }

  lemma {:induction false} BackwardsHonours(fails: set<Cleanup>, g: Registry, ids: seq<Id>, busy: set<Root>)
    requires Sound(g, busy)
    ensures Honours(g, DisposeBackwards(fails, g, ids).0)
    decreases |ids|
  {
    if |ids| > 0 {
      var last := ids[|ids| - 1];
      var g1 := Dispose(fails, g, last).0;
      DisposeSound(fails, g, last, busy);
      DisposeHonours(fails, g, last);
      BackwardsHonours(fails, g1, ids[..|ids| - 1], busy);
      HonoursJoin(g, g1, DisposeBackwards(fails, g1, ids[..|ids| - 1]).0);
    }
  }

  lemma DestroyRootHonours(fails: set<Cleanup>, g: Registry, root: Root)
    requires Sound(g, {})
    ensures Honours(g, DestroyRootStep(fails, g, root).0)
  {
    if root in g.roots {
      var members := g.roots[root].members;
      var g1 := g.(gone := g.gone + {root}, roots := g.roots[root := RootState(members, true)]);
      assert Undisposed(g1) == Undisposed(g);
      assert Sound(g1, {root});
      BackwardsHonours(fails, g1, members, {root});
      var g2 := DisposeBackwards(fails, g1, members).0;
      assert Honours(g, g2);
      assert Undisposed(g2.(roots := g2.roots - {root})) == Undisposed(g2);
    }
  }

  // ---- steps that end lives, and steps that only register

  predicate Ends(e: Event) { e.DisposeFragment? || e.DestroyScope? || e.DestroyRoot? }

  lemma EndsHonours(fails: set<Cleanup>, g: Registry, e: Event)
    requires Sound(g, {}) && Ends(e)
    ensures Honours(g, Step(fails, g, e).0)
  {
    match e
    case DisposeFragment(id) => DisposeHonours(fails, g, id);
    case DestroyScope(scope, rethrows) => FireHonours(fails, g, ListenersOf(g, g.listeners, scope), rethrows);
    case DestroyRoot(root) => DestroyRootHonours(fails, g, root);
  }

  /** The record stays live or disposed, keeps its children, and all its cleanups except the one taken back. */
  ghost predicate Grown(r: Record, r': Record, taken: set<Cleanup>) {
    && r'.disposed == r.disposed
    && (forall c | c in r.children :: c in r'.children)
    && (forall c | c !in taken && Registered(r, c) :: Registered(r', c))
  }

  ghost predicate Extends(g: Registry, g': Registry, e: Event) {
    && g'.log == g.log
    && forall x | x in g.records :: x in g'.records && Grown(g.records[x], g'.records[x], TakenFrom(e, x))
  }

  function TakenFrom(e: Event, x: Id): set<Cleanup> {
    if e.RemoveAsyncWork? && e.id == x then {e.cleanup} else {}
  }

  lemma OtherExtends(fails: set<Cleanup>, g: Registry, e: Event)
    requires !Ends(e)
    ensures Extends(g, Step(fails, g, e).0, e)
  {
    match e
    case Create(id, r) => CreateExtends(g, id, r);
    case AddChild(p, c) => AddChildExtends(g, p, c);
    case AddDisposer(id, c) => RegisterThrowsIff(fails, g, id, c);
    case AddAsyncWork(id, c) => RegisterThrowsIff(fails, g, id, c);
    case RemoveAsyncWork(id, c) => RemoveExtends(g, id, c);
  }

  lemma CreateExtends(g: Registry, id: Id, r: Record)
    ensures Extends(g, CreateStep(g, id, r).0, Create(id, r))
  {
    if id !in g.records && r.root !in g.gone { CreateParts(g, id, r); }
  }

  lemma AddChildExtends(g: Registry, p: Id, c: Id)
    ensures Extends(g, AddChildStep(g, p, c).0, AddChild(p, c))
  {
    if AddChildStep(g, p, c).0 != g { AddChildParts(g, p, c); }
  }

  lemma RemoveExtends(g: Registry, id: Id, c: Cleanup)
    ensures Extends(g, RemoveAsyncWorkStep(g, id, c), RemoveAsyncWork(id, c))
  {
  }

  // ---- links

  /** As long as the child lives its parent is live and lists it. */
  ghost predicate Bound(g: Registry, p: Id, c: Id) {
    && c in g.records
    && (c in Undisposed(g) ==> p in Undisposed(g) && c in g.records[p].children)
  }

  lemma HonouredLink(g: Registry, g': Registry, p: Id, c: Id)
    requires LinksOk(g) && LinksOk(g') && Honours(g, g') && Bound(g, p, c)
    ensures Bound(g', p, c)
  {
    if c in Undisposed(g') {
      assert c in g.parents && g.parents[c] == p;
      assert c in g'.parents && g'.parents[c] == p;
    }
  }

  lemma ExtendedLink(g: Registry, g': Registry, e: Event, p: Id, c: Id)
    requires Extends(g, g', e) && Bound(g, p, c)
    ensures Bound(g', p, c)
  {
    if c in Undisposed(g') { assert c in g.records[p].children; }
  }

  lemma StepKeepsBound(fails: set<Cleanup>, g: Registry, e: Event, p: Id, c: Id)
    requires Sound(g, {}) && Bound(g, p, c)
    ensures Bound(Step(fails, g, e).0, p, c)
  {
    var g' := Step(fails, g, e).0;
    if Ends(e) {
      StepSound(fails, g, e);
      EndsHonours(fails, g, e);
      HonouredLink(g, g', p, c);
    } else {
      OtherExtends(fails, g, e);
      ExtendedLink(g, g', e, p, c);
    }
  }

  lemma {:induction false} RunKeepsBound(fails: set<Cleanup>, g: Registry, events: seq<Event>, p: Id, c: Id)
    requires Sound(g, {}) && Bound(g, p, c)
    ensures Bound(Run(fails, g, events), p, c)
    decreases |events|
  {
    if |events| > 0 {
      StepKeepsBound(fails, g, events[0], p, c);
      StepSound(fails, g, events[0]);
      RunKeepsBound(fails, Step(fails, g, events[0]).0, events[1..], p, c);
    }
  }

  /**
   * Main result: two live records of one root, the child without a parent, are linked without an error; from then on,
   * whatever happens, a child of the parent, new or earlier, is disposed or its parent is live and lists it.
   */
  lemma LinkedForLife(fails: set<Cleanup>, g: Registry, p: Id, c: Id, events: seq<Event>)
    requires Sound(g, {})
    requires p != c && p in Undisposed(g) && c in Undisposed(g) && g.records[p].root == g.records[c].root
    requires c !in g.parents
    ensures !Step(fails, g, AddChild(p, c)).1
    ensures var g' := Run(fails, Step(fails, g, AddChild(p, c)).0, events);
            forall x | x in g.records[p].children + [c] :: Bound(g', p, x)
  {
    var g1 := Step(fails, g, AddChild(p, c)).0;
    StepSound(fails, g, AddChild(p, c));
    forall x | x in g.records[p].children + [c] ensures Bound(Run(fails, g1, events), p, x) {
      assert x in g1.records[p].children;
      RunKeepsBound(fails, g1, events, p, x);
    }
  }

  /** Corollary: whatever disposes the parent, directly or not, the children are disposed with it. */
  lemma ChildrenGoToo(fails: set<Cleanup>, g: Registry, p: Id, c: Id, events: seq<Event>)
    requires Sound(g, {})
    requires p != c && p in Undisposed(g) && c in Undisposed(g) && g.records[p].root == g.records[c].root
    requires c !in g.parents
    ensures var g' := Run(fails, Step(fails, g, AddChild(p, c)).0, events + [DisposeFragment(p)]);
            p !in Undisposed(g') && forall x | x in g.records[p].children + [c] :: x !in Undisposed(g')
  {
    var g1 := Step(fails, g, AddChild(p, c)).0;
    StepSound(fails, g, AddChild(p, c));
    LinkedForLife(fails, g, p, c, events + [DisposeFragment(p)]);
    RunSnoc(fails, g1, events, DisposeFragment(p));
    RunSound(fails, g1, events);
    DisposeSound(fails, Run(fails, g1, events), p, {});
  }

  lemma {:induction false} RunSnoc(fails: set<Cleanup>, g: Registry, events: seq<Event>, e: Event)
    ensures Run(fails, g, events + [e]) == Step(fails, Run(fails, g, events), e).0
    decreases |events|
  {
    if |events| == 0 {
      assert (events + [e])[0] == e && (events + [e])[1..] == [];
    } else {
      assert (events + [e])[0] == events[0] && (events + [e])[1..] == events[1..] + [e];
      RunSnoc(fails, Step(fails, g, events[0]).0, events[1..], e);
    }
  }

  // ---- cleanups

  /** The record lives and still holds the cleanup, or it is gone and the cleanup has run. */
  ghost predicate Kept(g: Registry, id: Id, c: Cleanup, n: nat) {
    && id in g.records && n <= |g.log|
    && (id in Undisposed(g) ==> Registered(g.records[id], c))
    && (id !in Undisposed(g) ==> RanSince(n, g.log, c))
  }

  lemma HonouredCleanup(g: Registry, g': Registry, id: Id, c: Cleanup, n: nat)
    requires Honours(g, g') && Kept(g, id, c, n)
    ensures Kept(g', id, c, n)
  {
    if id in Undisposed(g') {
      SameLists(g.records[id], g'.records[id], c);
    } else if id in Undisposed(g) {
      RanStill(n, |g.log|, g'.log, g'.log, c);
    } else {
      RanStill(n, n, g.log, g'.log, c);
    }
  }

  lemma ExtendedCleanup(g: Registry, g': Registry, e: Event, id: Id, c: Cleanup, n: nat)
    requires Extends(g, g', e) && Kept(g, id, c, n) && e != RemoveAsyncWork(id, c)
    ensures Kept(g', id, c, n)
  {
    assert c !in TakenFrom(e, id);
    assert Grown(g.records[id], g'.records[id], TakenFrom(e, id));
  }

  lemma StepKeepsCleanup(fails: set<Cleanup>, g: Registry, e: Event, id: Id, c: Cleanup, n: nat)
    requires Sound(g, {}) && Kept(g, id, c, n) && e != RemoveAsyncWork(id, c)
    ensures Kept(Step(fails, g, e).0, id, c, n)
  {
    var g' := Step(fails, g, e).0;
    if Ends(e) {
      EndsHonours(fails, g, e);
      HonouredCleanup(g, g', id, c, n);
    } else {
      OtherExtends(fails, g, e);
      ExtendedCleanup(g, g', e, id, c, n);
    }
  }

  /**
   * Main result: from any moment on, a cleanup held by a live record, a disposer, async work that is not taken back or
   * a child scope, is still held by the still live record or has run, whatever ended the record's life.
   */
  lemma {:induction false} NothingRegisteredIsForgotten(fails: set<Cleanup>, g: Registry, events: seq<Event>, id: Id,
      c: Cleanup, n: nat)
    requires Sound(g, {}) && Kept(g, id, c, n) && RemoveAsyncWork(id, c) !in events
    ensures Kept(Run(fails, g, events), id, c, n)
    decreases |events|
  {
    if |events| > 0 {
      assert events[0] in events;
      StepKeepsCleanup(fails, g, events[0], id, c, n);
      StepSound(fails, g, events[0]);
      NothingRegisteredIsForgotten(fails, Step(fails, g, events[0]).0, events[1..], id, c, n);
    }
  }

  /** A record's disposal ends with its async work, its disposers and its child scopes, each list backwards. */
  lemma DisposalEndsWithTheLists(fails: set<Cleanup>, g: Registry, id: Id)
    requires LinksOk(g) && id in Undisposed(g)
    ensures var r := g.records[id];
            EndsWith(Step(fails, g, DisposeFragment(id)).0.log,
                Reversed(r.asyncWork) + Reversed(r.disposers) + Reversed(r.childScopes))
  {
    var d := Detach(g, id);
    var ids := OrderAll(fails, Prepare(d, id), d.records[id].children);
    DetachFirst(fails, g, id);
    DisposalTheorem(fails, g, id);
    OrderUnfolds(fails, d, id);
    assert Order(fails, g, id) == ids + [id];
    forall x | x in ids ensures x in g.records { assert x in ids + [id]; }
    OwnAllSnoc(g, ids, id);
    EndsWithLast(g.log, OwnAll(g, ids), Own(g.records[id]));
  }

  predicate EndsWith<T(==)>(s: seq<T>, end: seq<T>) {
    |end| <= |s| && s[|s| - |end|..] == end
  }

  lemma EndsWithLast(a: seq<Cleanup>, b: seq<Cleanup>, c: seq<Cleanup>)
    ensures EndsWith(a + (b + c), c)
  {
  }

  /** The same registration once for each of the cleanups. */
  function Registrations(id: Id, cs: seq<Cleanup>, async: bool): (r: seq<Event>)
    ensures |r| == |cs|
    ensures forall i | 0 <= i < |cs| :: r[i] == if async then AddAsyncWork(id, cs[i]) else AddDisposer(id, cs[i])
  {
    seq(|cs|, i requires 0 <= i < |cs| => if async then AddAsyncWork(id, cs[i]) else AddDisposer(id, cs[i]))
  }

  /** The record with these cleanups behind those it has. */
  function Longer(r: Record, cs: seq<Cleanup>, async: bool): Record {
    if async then r.(asyncWork := r.asyncWork + cs) else r.(disposers := r.disposers + cs)
  }

  lemma LongerByOne(r: Record, cs: seq<Cleanup>, async: bool)
    requires |cs| > 0
    ensures Longer(Longer(r, [cs[0]], async), cs[1..], async) == Longer(r, cs, async)
  {
    Associates(r.asyncWork, cs);
    Associates(r.disposers, cs);
  }

  lemma Associates(a: seq<Cleanup>, cs: seq<Cleanup>)
    requires |cs| > 0
    ensures a + [cs[0]] + cs[1..] == a + cs
  {
  }

  lemma LongerByNone(r: Record, async: bool)
    ensures Longer(r, [], async) == r
  {
    assert r.asyncWork + [] == r.asyncWork && r.disposers + [] == r.disposers;
  }

  lemma RegistersOne(fails: set<Cleanup>, g: Registry, id: Id, c: Cleanup, async: bool)
    requires Sound(g, {}) && id in Undisposed(g)
    ensures var g' := Step(fails, g, if async then AddAsyncWork(id, c) else AddDisposer(id, c)).0;
            Sound(g', {}) && id in Undisposed(g') && g'.records[id] == Longer(g.records[id], [c], async)
  {
    StepSound(fails, g, if async then AddAsyncWork(id, c) else AddDisposer(id, c));
    RegisterThrowsIff(fails, g, id, c);
  }

  lemma {:induction false} RegistersAll(fails: set<Cleanup>, g: Registry, id: Id, cs: seq<Cleanup>, async: bool)
    requires Sound(g, {}) && id in Undisposed(g)
    ensures var g' := Run(fails, g, Registrations(id, cs, async));
            Sound(g', {}) && id in Undisposed(g') && g'.records[id] == Longer(g.records[id], cs, async)
    decreases |cs|
  {
    var r := g.records[id];
    var events := Registrations(id, cs, async);
    if |cs| == 0 {
      assert cs == [];
      LongerByNone(r, async);
    } else {
      var g1 := Step(fails, g, events[0]).0;
      RegistersOne(fails, g, id, cs[0], async);
      RegistersAll(fails, g1, id, cs[1..], async);
      LongerByOne(r, cs, async);
      assert events[1..] == Registrations(id, cs[1..], async);
    }
  }

  lemma ReversedJoin(a: seq<Cleanup>, b: seq<Cleanup>)
    ensures Reversed(a + b) == Reversed(b) + Reversed(a)
  {
    assert forall i | 0 <= i < |a + b| :: Reversed(a + b)[i] == (Reversed(b) + Reversed(a))[i];
  }

  /** A record's cleanups with some more of one kind, in the order they run. */
  function LastFirst(r: Record, cs: seq<Cleanup>, async: bool): seq<Cleanup> {
    if async then Reversed(cs) + Reversed(r.asyncWork) + Reversed(r.disposers) + Reversed(r.childScopes)
    else Reversed(r.asyncWork) + (Reversed(cs) + Reversed(r.disposers)) + Reversed(r.childScopes)
  }

  lemma LongerBackwards(r: Record, cs: seq<Cleanup>, async: bool)
    ensures var l := Longer(r, cs, async);
            Reversed(l.asyncWork) + Reversed(l.disposers) + Reversed(l.childScopes) == LastFirst(r, cs, async)
  {
    ReversedJoin(r.asyncWork, cs);
    ReversedJoin(r.disposers, cs);
  }

  /** Main result: what is registered on a live record one after the other runs at its disposal, the last one first. */
  lemma LastRegisteredRunsFirst(fails: set<Cleanup>, g: Registry, id: Id, cs: seq<Cleanup>, async: bool)
    requires Sound(g, {}) && id in Undisposed(g)
    ensures EndsWith(Run(fails, g, Registrations(id, cs, async) + [DisposeFragment(id)]).log,
                LastFirst(g.records[id], cs, async))
  {
    RegistersAll(fails, g, id, cs, async);
    RunSnoc(fails, g, Registrations(id, cs, async), DisposeFragment(id));
    DisposalEndsWithTheLists(fails, Run(fails, g, Registrations(id, cs, async)), id);
    LongerBackwards(g.records[id], cs, async);
  }

  // ---- siblings

  /** Both were disposed, the one before the other. */
  ghost predicate Before(ids: seq<Id>, x: Id, y: Id) {
    exists i, j | 0 <= i < j < |ids| :: ids[i] == x && ids[j] == y
  }

  lemma BeforeOnTheRight(a: seq<Id>, b: seq<Id>, x: Id, y: Id)
    requires Before(b, x, y)
    ensures Before(a + b, x, y)
  {
    var i, j :| 0 <= i < j < |b| && b[i] == x && b[j] == y;
    assert (a + b)[|a| + i] == x && (a + b)[|a| + j] == y;
  }

  lemma BeforeAcross(a: seq<Id>, b: seq<Id>, x: Id, y: Id)
    requires x in a && y in b
    ensures Before(a + b, x, y)
  {
    var i :| 0 <= i < |a| && a[i] == x;
    var j :| 0 <= j < |b| && b[j] == y;
    assert (a + b)[i] == x && (a + b)[|a| + j] == y;
  }

  /** No live record lists it. */
  ghost predicate Unlisted(g: Registry, c: Id) {
    forall x | x in Undisposed(g) :: c !in g.records[x].children
  }

  /** A record that nobody lists stays when others are disposed. */
  lemma UnlistedStays(fails: set<Cleanup>, g: Registry, id: Id, c: Id)
    requires id !in g.parents && c != id && Unlisted(g, c)
    ensures c !in Order(fails, g, id)
  {
    if id in Undisposed(g) {
      DisposeWithin(fails, g, id, Undisposed(g) - {c});
    } else {
      assert Order(fails, g, id) == [];
    }
  }

  ghost predicate AllUnlisted(g: Registry, children: seq<Id>) {
    NoDuplicates(children) && forall c | c in children :: c in Undisposed(g) && Unlisted(g, c)
  }

  lemma RestUnlisted(fails: set<Cleanup>, g: Registry, children: seq<Id>)
    requires AllUnlisted(g, children) && |children| > 0
    ensures var last := children[|children| - 1];
            AllUnlisted(Dispose(fails, g.(parents := g.parents - {last}), last).0, children[..|children| - 1])
  {
    var last, rest := children[|children| - 1], children[..|children| - 1];
    var g0 := g.(parents := g.parents - {last});
    var g1 := Dispose(fails, g0, last).0;
    FirstChildDisposed(fails, g, last);
    forall c | c in rest ensures c in Undisposed(g1) && Unlisted(g1, c) {
      assert c in children && c != last;
      assert Undisposed(g0) == Undisposed(g) && Unlisted(g0, c);
      UnlistedStays(fails, g0, last, c);
    }
  }

  /** The last child is among the first to go, and the others are among the rest. */
  lemma LastAndOthers(fails: set<Cleanup>, g: Registry, children: seq<Id>)
    returns (a: seq<Id>, b: seq<Id>, g1: Registry)
    requires AllUnlisted(g, children) && |children| > 0
    ensures var last, rest := children[|children| - 1], children[..|children| - 1];
            && OrderAll(fails, g, children) == a + b && b == OrderAll(fails, g1, rest) && AllUnlisted(g1, rest)
            && last in a && forall c | c in rest :: c in b
  {
    var last, rest := children[|children| - 1], children[..|children| - 1];
    var g0 := g.(parents := g.parents - {last});
    g1 := Dispose(fails, g0, last).0;
    a, b := Order(fails, g0, last), OrderAll(fails, g1, rest);
    assert last in children && Undisposed(g0) == Undisposed(g);
    OrderAllUnfolds(fails, g, children);
    DisposeClosure(fails, g0, last);
    RestUnlisted(fails, g, children);
    DisposeChildrenClosure(fails, g1, rest);
  }

  lemma {:induction false} SiblingsBackwards(fails: set<Cleanup>, g: Registry, children: seq<Id>, i: nat, j: nat)
    requires AllUnlisted(g, children) && i < j < |children|
    ensures Before(OrderAll(fails, g, children), children[j], children[i])
    decreases |children|
  {
    var a, b, g1 := LastAndOthers(fails, g, children);
    var rest := children[..|children| - 1];
    if j < |rest| {
      SiblingsBackwards(fails, g1, rest, i, j);
      BeforeOnTheRight(a, b, children[j], children[i]);
    } else {
      assert rest[i] in rest;
      BeforeAcross(a, b, children[j], children[i]);
    }
  }

  lemma ChildrenUnlisted(g: Registry, id: Id)
    requires LinksOk(g) && id in Undisposed(g)
    ensures var d := Detach(g, id);
            id !in d.parents && d.records[id].children == g.records[id].children
            && AllUnlisted(Prepare(d, id), g.records[id].children)
  {
    var d, children := Detach(g, id), g.records[id].children;
    var p := Prepare(d, id);
    DetachParts(g, id);
    DetachMarked(g, id);
    PrepareRecords(d, id);
    forall c | c in children ensures c in Undisposed(p) && Unlisted(p, c) {
      assert c in g.parents && g.parents[c] == id && c != id;
      forall x | x in Undisposed(p) ensures c !in p.records[x].children {
        assert x in Undisposed(g) && x != id && c !in g.records[x].children;
      }
    }
  }

  /** Main result: of two children the one linked later is disposed first. */
  lemma LastChildGoesFirst(fails: set<Cleanup>, g: Registry, id: Id, i: nat, j: nat)
    requires LinksOk(g) && id in Undisposed(g) && i < j < |g.records[id].children|
    ensures var children := g.records[id].children;
            var g' := Step(fails, g, DisposeFragment(id)).0;
            g.finished <= g'.finished && Before(g'.finished[|g.finished|..], children[j], children[i])
  {
    var d, children := Detach(g, id), g.records[id].children;
    var before := OrderAll(fails, Prepare(d, id), children);
    ChildrenUnlisted(g, id);
    SiblingsBackwards(fails, Prepare(d, id), children, i, j);
    BeforeLast(before, id, children[j], children[i]);
    DisposalEnds(fails, g, id);
  }

  lemma DisposalEnds(fails: set<Cleanup>, g: Registry, id: Id)
    requires LinksOk(g) && id in Undisposed(g)
    ensures var d := Detach(g, id);
            Dispose(fails, g, id).0.finished
            == g.finished + (OrderAll(fails, Prepare(d, id), g.records[id].children) + [id])
  {
    var d := Detach(g, id);
    ChildrenUnlisted(g, id);
    DetachParts(g, id);
    DetachFirst(fails, g, id);
    DisposalTheorem(fails, g, id);
    OrderUnfolds(fails, d, id);
  }

  lemma BeforeLast(ids: seq<Id>, last: Id, x: Id, y: Id)
    requires Before(ids, x, y)
    ensures Before(ids + [last], x, y)
  {
    var i, j :| 0 <= i < j < |ids| && ids[i] == x && ids[j] == y;
    assert (ids + [last])[i] == x && (ids + [last])[j] == y;
  }

  // ---- scopes

  /** The destruction of a scope, unless an exception ends it, disposes every record that listens to that scope. */
  lemma ScopeTakesItsListeners(fails: set<Cleanup>, g: Registry, scope: Scope, rethrows: bool)
    requires Sound(g, {})
    ensures var (g', threw) := Step(fails, g, DestroyScope(scope, rethrows));
            && (threw ==> rethrows)
            && (!threw ==>
              forall x | x in g.listeners && g.records[x].parentScope == scope :: x !in Undisposed(g'))
  {
    var ids := ListenersOf(g, g.listeners, scope);
    FireSound(fails, g, ids, rethrows);
    FragmentHolders.AllListenersOf(g, g.listeners, scope);
  }

  /** A record that somebody disposes: one of `ids`, or one whose parent goes too. */
  ghost predicate OnlyBelow(g: Registry, g': Registry, ids: seq<Id>) {
    forall x | x in Undisposed(g) && x !in Undisposed(g') ::
      x in ids || (x in g.parents && g.parents[x] in Undisposed(g) && g.parents[x] !in Undisposed(g'))
  }

  lemma {:induction false} FireOnlyBelow(fails: set<Cleanup>, g: Registry, ids: seq<Id>, rethrows: bool)
    requires Sound(g, {})
    ensures OnlyBelow(g, FireListeners(fails, g, ids, rethrows).0, ids)
    decreases |ids|
  {
    if |ids| > 0 {
      var g1 := Dispose(fails, g, ids[0]).0;
      var g' := FireListeners(fails, g, ids, rethrows).0;
      UnlistenFirst(fails, g, ids[0]);
      DisposeSound(fails, g, ids[0], {});
      DisposeHonours(fails, g, ids[0]);
      FireHonours(fails, g1, ids[1..], rethrows);
      FireSound(fails, g1, ids[1..], rethrows);
      FireOnlyBelow(fails, g1, ids[1..], rethrows);
      forall x | x in Undisposed(g) && x !in Undisposed(g')
        ensures x in ids || (x in g.parents && g.parents[x] in Undisposed(g) && g.parents[x] !in Undisposed(g'))
      {
        if x !in Undisposed(g1) && x != ids[0] {
          TakenThroughParent(fails, g, ids[0], x);
        }
      }
    }
  }

  /** The destruction of a scope disposes nothing but these and what hangs below them. */
  lemma ScopeTakesOnlyItsListeners(fails: set<Cleanup>, g: Registry, scope: Scope, rethrows: bool, x: Id)
    requires Sound(g, {})
    requires var g' := Step(fails, g, DestroyScope(scope, rethrows)).0; x in Undisposed(g) && x !in Undisposed(g')
    ensures var g' := Step(fails, g, DestroyScope(scope, rethrows)).0;
            || (x in g.listeners && g.records[x].parentScope == scope)
            || (x in g.parents && g.parents[x] in Undisposed(g) && g.parents[x] !in Undisposed(g'))
  {
    FireOnlyBelow(fails, g, ListenersOf(g, g.listeners, scope), rethrows);
    OnlyListenersOf(g, g.listeners, scope);
  }

  lemma {:induction false} OnlyListenersOf(g: Registry, ids: seq<Id>, scope: Scope)
    ensures forall x | x in ListenersOf(g, ids, scope) :: x in g.records && g.records[x].parentScope == scope
    decreases |ids|
  {
    if |ids| > 0 { OnlyListenersOf(g, ids[1..], scope); }
  }
}
