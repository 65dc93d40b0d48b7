/** Which scope listeners can still fire: a fragment created on a destroyed scope is held by nobody. */
module FragmentHolders {
  import opened Basics
  import opened Fragments
  import opened FragmentLife

  /** No listener is on one of these scopes, which have been destroyed. */
  ghost predicate ListenersLive(g: Registry, dead: set<Scope>) {
    forall x | x in g.listeners && x in g.records :: g.records[x].parentScope !in dead
  }

  /** Nothing new listens, and records keep their scopes. */
  ghost predicate Narrows(g: Registry, g': Registry) {
    && g'.records.Keys == g.records.Keys
    && (forall x | x in g.records :: g'.records[x].parentScope == g.records[x].parentScope)
    && (forall x | x in g'.listeners :: x in g.listeners)
  }

  lemma DetachNarrows(g: Registry, id: Id)
    ensures Narrows(g, Detach(g, id))
  {
  }

  lemma PrepareNarrows(g: Registry, id: Id)
    requires id in g.records
    ensures Narrows(g, Prepare(g, id))
  {
    var marked := Mark(g, id);
    DetachNarrows(marked, id);
    var detached := Detach(marked, id);
    assert Unregister(detached, id).records == detached.records
        && Unregister(detached, id).listeners == detached.listeners;
  }

  lemma {:induction false} DisposeNarrows(fails: set<Cleanup>, g: Registry, id: Id)
    ensures Narrows(g, Dispose(fails, g, id).0)
    decreases Undisposed(g), 0, 0
  {
    if id in g.records && !g.records[id].disposed {
      PrepareNarrows(g, id);
      DisposeChildrenNarrows(fails, Prepare(g, id), g.records[id].children);
    }
  }

  lemma {:induction false} DisposeChildrenNarrows(fails: set<Cleanup>, g: Registry, children: seq<Id>)
    ensures Narrows(g, DisposeChildren(fails, g, children).0)
    decreases Undisposed(g), 1, |children|
  {
    if |children| > 0 {
      var last := children[|children| - 1];
      var g0 := g.(parents := g.parents - {last});
      DisposeNarrows(fails, g0, last);
      DisposeChildrenNarrows(fails, Dispose(fails, g0, last).0, children[..|children| - 1]);
    }
  }

  lemma {:induction false} FireNarrows(fails: set<Cleanup>, g: Registry, ids: seq<Id>, rethrows: bool)
    ensures Narrows(g, FireListeners(fails, g, ids, rethrows).0)
    decreases |ids|
  {
    if |ids| > 0 {
      DisposeNarrows(fails, Unlisten(g, ids[0]), ids[0]);
      FireNarrows(fails, Dispose(fails, Unlisten(g, ids[0]), ids[0]).0, ids[1..], rethrows);
    }
  }

  lemma {:induction false} BackwardsNarrows(fails: set<Cleanup>, g: Registry, ids: seq<Id>)
    ensures Narrows(g, DisposeBackwards(fails, g, ids).0)
    decreases |ids|
  {
    if |ids| > 0 {
      DisposeNarrows(fails, g, ids[|ids| - 1]);
      BackwardsNarrows(fails, Dispose(fails, g, ids[|ids| - 1]).0, ids[..|ids| - 1]);
    }
  }

  lemma {:induction false} AllListenersOf(g: Registry, ids: seq<Id>, scope: Scope)
    ensures forall x | x in ids && x in g.records && g.records[x].parentScope == scope ::
            x in ListenersOf(g, ids, scope)
    decreases |ids|
  {
    if |ids| > 0 { AllListenersOf(g, ids[1..], scope); }
  }

  /** The scopes marked as destroyed: not one whose destruction an exception ended. */
  function DeadAfter(fails: set<Cleanup>, g: Registry, dead: set<Scope>, e: Event): set<Scope> {
    if e.DestroyScope? && !Step(fails, g, e).1 then dead + {e.scope} else dead
  }

  /** A record is created on a scope that has been destroyed, and is not one of the root's own. */
  predicate CreatesOnDead(g: Registry, dead: set<Scope>, e: Event) {
    e.Create? && e.id !in g.records && e.record.root !in g.gone && !e.record.onRootScope && e.record.parentScope in dead
  }

  lemma DestroyedScopeIsSilent(fails: set<Cleanup>, g: Registry, dead: set<Scope>, scope: Scope, rethrows: bool)
    requires Sound(g, {}) && ListenersLive(g, dead)
    ensures var e := DestroyScope(scope, rethrows);
            ListenersLive(Step(fails, g, e).0, DeadAfter(fails, g, dead, e))
  {
    var e := DestroyScope(scope, rethrows);
    var ids := ListenersOf(g, g.listeners, scope);
    var g' := FireListeners(fails, g, ids, rethrows).0;
    FireSound(fails, g, ids, rethrows);
    FireNarrows(fails, g, ids, rethrows);
    AllListenersOf(g, g.listeners, scope);
    forall x | x in g'.listeners && x in g'.records ensures g'.records[x].parentScope !in DeadAfter(fails, g, dead, e) {
      assert x in Undisposed(g') && x in g.listeners;
    }
  }

  /** Every listener can still fire after a step iff the step does not create a record on a destroyed scope. */
  lemma StepListenersLiveIff(fails: set<Cleanup>, g: Registry, dead: set<Scope>, e: Event)
    requires Sound(g, {}) && ListenersLive(g, dead)
    ensures ListenersLive(Step(fails, g, e).0, DeadAfter(fails, g, dead, e)) <==> !CreatesOnDead(g, dead, e)
  {
    match e
    case Create(id, r) => CreateListens(g, dead, id, r);
    case DisposeFragment(id) => DisposeNarrows(fails, g, id);
    case DestroyScope(scope, rethrows) => DestroyedScopeIsSilent(fails, g, dead, scope, rethrows);
    case DestroyRoot(root) =>
      if root in g.roots {
        var members := g.roots[root].members;
        BackwardsNarrows(fails, g.(gone := g.gone + {root}, roots := g.roots[root := RootState(members, true)]),
            members);
      }
    case _ =>
  }

  lemma CreateListens(g: Registry, dead: set<Scope>, id: Id, r: Record)
    requires Sound(g, {}) && ListenersLive(g, dead)
    ensures ListenersLive(CreateStep(g, id, r).0, dead) <==> !CreatesOnDead(g, dead, Create(id, r))
  {
    var g' := CreateStep(g, id, r).0;
    if id !in g.records && r.root !in g.gone {
      CreateParts(g, id, r);
      assert forall x | x in g.listeners :: x in g.records && x != id;
      if !r.onRootScope { assert g'.listeners == g.listeners + [id] && id in g'.listeners; }
    }
  }

  ghost predicate OnLiveScopes(fails: set<Cleanup>, g: Registry, dead: set<Scope>, events: seq<Event>)
    decreases |events|
  {
    |events| == 0 ||
    (!CreatesOnDead(g, dead, events[0])
     && OnLiveScopes(fails, Step(fails, g, events[0]).0, DeadAfter(fails, g, dead, events[0]), events[1..]))
  }

  function DeadIn(fails: set<Cleanup>, g: Registry, dead: set<Scope>, events: seq<Event>): set<Scope>
    decreases |events|
  {
    if |events| == 0 then dead
    else DeadIn(fails, Step(fails, g, events[0]).0, DeadAfter(fails, g, dead, events[0]), events[1..])
  }

  /** In its root's set, listed by a live parent, or listening on a scope that has not been destroyed. */
  ghost predicate HeldLive(g: Registry, dead: set<Scope>, x: Id)
    requires x in g.records
  {
    || (g.records[x].root in g.roots && x in g.roots[g.records[x].root].members)
    || (x in g.listeners && g.records[x].parentScope !in dead)
    || (x in g.parents && g.parents[x] in Undisposed(g) && x in g.records[g.parents[x]].children)
  }

  lemma {:induction false} RunListenersLive(fails: set<Cleanup>, g: Registry, dead: set<Scope>, events: seq<Event>)
    requires Sound(g, {}) && ListenersLive(g, dead) && OnLiveScopes(fails, g, dead, events)
    ensures ListenersLive(Run(fails, g, events), DeadIn(fails, g, dead, events)) && Sound(Run(fails, g, events), {})
    decreases |events|
  {
    if |events| > 0 {
      StepSound(fails, g, events[0]);
      StepListenersLiveIff(fails, g, dead, events[0]);
      RunListenersLive(fails, Step(fails, g, events[0]).0, DeadAfter(fails, g, dead, events[0]), events[1..]);
    }
  }

  /** Main result: unless a record is created on a destroyed scope, somebody alive holds each undisposed one. */
  lemma NoOrphansOnLiveScopes(fails: set<Cleanup>, events: seq<Event>)
    requires OnLiveScopes(fails, EMPTY, {}, events)
    ensures var g := Run(fails, EMPTY, events);
            Sound(g, {}) && forall x | x in Undisposed(g) :: HeldLive(g, DeadIn(fails, EMPTY, {}, events), x)
  {
    RunListenersLive(fails, EMPTY, {}, events);
    NoOrphans(fails, events);
    var g := Run(fails, EMPTY, events);
    forall x | x in Undisposed(g) ensures HeldLive(g, DeadIn(fails, EMPTY, {}, events), x) { assert Held(g, x); }
  }
}
