/** The root queue across fragments: what is in it leaves in the order in which it came, and executes in that order. */
module DomQueue {
  import opened DomWork

  // ---- what enters and leaves, read off the queue itself

  /** What is at the end of the queue afterwards and was not in it. */
  function Arriving(s: State, t: State): seq<Item> {
    if |t.queue| > |s.queue| then t.queue[|s.queue|..] else []
  }

  /** What is at its front and is not in it afterwards. */
  function Departing(s: State, t: State): seq<Item> {
    if |t.queue| < |s.queue| then s.queue[..|s.queue| - |t.queue|] else []
  }

  function Arrivals(s: State, events: seq<Event>): seq<Item>
    decreases |events|
  {
    if |events| == 0 then [] else Arriving(s, Step(s, events[0])) + Arrivals(Step(s, events[0]), events[1..])
  }

  function Departures(s: State, events: seq<Event>): seq<Item>
    decreases |events|
  {
    if |events| == 0 then [] else Departing(s, Step(s, events[0])) + Departures(Step(s, events[0]), events[1..])
  }

  lemma QueueStep(s: State, e: Event)
    ensures s.queue + Arriving(s, Step(s, e)) == Departing(s, Step(s, e)) + Step(s, e).queue
  {
  }

  /** Main result: the queue is first in, first out, whatever the fragments, in every run whatsoever. */
  lemma {:induction false} FirstInFirstOut(s: State, events: seq<Event>)
    ensures s.queue + Arrivals(s, events) == Departures(s, events) + Run(s, events).queue
    decreases |events|
  {
    if |events| > 0 {
      var s1 := Step(s, events[0]);
      QueueStep(s, events[0]);
      FirstInFirstOut(s1, events[1..]);
      Chained(s.queue, Arriving(s, s1), Departing(s, s1), s1.queue, Arrivals(s1, events[1..]),
              Departures(s1, events[1..]), Run(s1, events[1..]).queue);
    } else {
      assert s.queue + [] == [] + s.queue;
    }
  }

  lemma Chained(q: seq<Item>, a: seq<Item>, d: seq<Item>, q1: seq<Item>, a1: seq<Item>, d1: seq<Item>, q2: seq<Item>)
    requires q + a == d + q1 && q1 + a1 == d1 + q2
    ensures q + (a + a1) == (d + d1) + q2
  {
    assert q + (a + a1) == (q + a) + a1 == (d + q1) + a1 == d + (q1 + a1) == d + (d1 + q2);
  }

  // ---- the operations in a list of items

  function Flat(items: seq<Item>): seq<(Fragment, Operation)>
    decreases |items|
  {
    if |items| == 0 then [] else Tagged(items[0].fragment, Operations(items[0])) + Flat(items[1..])
  }

  lemma {:induction false} FlatAppend(a: seq<Item>, b: seq<Item>)
    ensures Flat(a + b) == Flat(a) + Flat(b)
    decreases |a|
  {
    if |a| == 0 {
      assert a + b == b;
    } else {
      assert (a + b)[1..] == a[1..] + b;
      FlatAppend(a[1..], b);
    }
  }

  lemma FlatOne(item: Item)
    ensures Flat([item]) == Tagged(item.fragment, Operations(item))
  {
    assert [item][1..] == [];
    assert Flat([]) == [];
  }

  lemma {:induction false} TaggedFirst(f: Fragment, ops: seq<Operation>)
    requires |ops| > 0
    ensures Tagged(f, ops) == [(f, ops[0])] + Tagged(f, ops[1..])
    decreases |ops|
  {
    var n := |ops| - 1;
    if n == 0 {
      assert ops[..0] == [] && ops[1..] == [];
    } else {
      TaggedFirst(f, ops[..n]);
      assert ops[..n][1..] == ops[1..][..n - 1];
    }
  }

  lemma {:induction false} SubsequenceRefl<T>(a: seq<T>)
    ensures Subsequence(a, a)
    decreases |a|
  {
    if |a| > 0 { SubsequenceRefl(a[..|a| - 1]); }
  }

  lemma {:induction false} SubsequenceTrans<T>(a: seq<T>, b: seq<T>, c: seq<T>)
    requires Subsequence(a, b) && Subsequence(b, c)
    ensures Subsequence(a, c)
    decreases |c|
  {
    if |c| > 0 {
      var c1 := c[..|c| - 1];
      if Subsequence(b, c1) {
        SubsequenceTrans(a, b, c1);
      } else if Subsequence(a, b[..|b| - 1]) {
        SubsequenceTrans(a, b[..|b| - 1], c1);
      } else {
        SubsequenceTrans(a[..|a| - 1], b[..|b| - 1], c1);
      }
    }
  }

  lemma {:induction false} SubsequenceBehind<T>(p: seq<T>, a: seq<T>, b: seq<T>)
    requires Subsequence(a, b)
    ensures Subsequence(p + a, p + b)
    decreases |b|
  {
    if |b| == 0 {
      SubsequenceRefl(p + a);
    } else {
      var b1 := b[..|b| - 1];
      assert (p + b)[..|p + b| - 1] == p + b1;
      if Subsequence(a, b1) {
        SubsequenceBehind(p, a, b1);
      } else {
        SubsequenceBehind(p, a[..|a| - 1], b1);
        assert (p + a)[..|p + a| - 1] == p + a[..|a| - 1];
      }
    }
  }

  lemma {:induction false} SubsequenceBefore<T>(a: seq<T>, b: seq<T>, q: seq<T>)
    requires Subsequence(a, b)
    ensures Subsequence(a + q, b + q)
    decreases |q|
  {
    if |q| == 0 {
      assert a + q == a && b + q == b;
    } else {
      var q1 := q[..|q| - 1];
      SubsequenceBefore(a, b, q1);
      assert (a + q)[..|a + q| - 1] == a + q1 && (b + q)[..|b + q| - 1] == b + q1;
    }
  }

  // ---- what executes

  /** What was executed between two states. */
  function Gained(s: State, t: State): seq<(Fragment, Operation)> {
    if |s.executed| <= |t.executed| then t.executed[|s.executed|..] else []
  }

  lemma Grows(s: State, e: Event)
    ensures Step(s, e).executed == s.executed + Gained(s, Step(s, e))
  {
  }

  /** In one step the operations at hand, and those of what leaves the queue, execute or are begun in that order. */
  lemma StepInOrder(s: State, e: Event)
    requires BatchOk(s) && Possible(s, e)
    ensures var t := Step(s, e);
            Subsequence(Gained(s, t) + Flat(t.running), Flat(s.running) + Flat(Departing(s, t)))
  {
    var t := Step(s, e);
    if e.RunNext? {
      NextInOrder(s);
    } else if e.RunHead? {
      HeadInOrder(s);
    } else if e.Throw? {
      assert Gained(s, t) + Flat(t.running) == [];
      SubsequenceSkips([], [], Flat(s.running) + Flat(Departing(s, t)));
      assert [] + (Flat(s.running) + Flat(Departing(s, t))) == Flat(s.running) + Flat(Departing(s, t));
    } else {
      assert Gained(s, t) == [] && t.running == s.running;
      assert [] + Flat(s.running) == Flat(s.running);
      SubsequenceRefl(Flat(s.running));
      SubsequenceSkips(Flat(s.running), Flat(s.running), Flat(Departing(s, t)));
    }
  }

  lemma NextInOrder(s: State)
    requires BatchOk(s) && Possible(s, RunNext)
    ensures var t := Step(s, RunNext);
            Departing(s, t) == [] && Subsequence(Gained(s, t) + Flat(t.running), Flat(s.running) + [])
    ensures var t := Step(s, RunNext);
            Live(s, s.running[0].fragment) ==> Gained(s, t) + Flat(t.running) == Flat(s.running)
  {
    var t, f, ops := Step(s, RunNext), s.running[0].fragment, s.running[0].operations;
    assert s.running == [s.running[0]];
    FlatOne(s.running[0]);
    if |ops| > 0 {
      TaggedFirst(f, ops);
      LeftOver(f, ops);
      SubsequenceRefl(Flat(s.running));
      SubsequenceRefl(Tagged(f, ops[1..]));
      SubsequenceBehind([], Tagged(f, ops[1..]), Tagged(f, ops[1..]));
      SubsequenceDropsFirst((f, ops[0]), Tagged(f, ops[1..]));
      assert Gained(s, t) == if Live(s, f) then [(f, ops[0])] else [];
      assert [] + Tagged(f, ops[1..]) == Tagged(f, ops[1..]);
    }
    assert Flat(s.running) + [] == Flat(s.running);
  }

  lemma LeftOver(f: Fragment, ops: seq<Operation>)
    requires |ops| > 0
    ensures Flat(Remaining(f, ops)) == Tagged(f, ops[1..])
  {
    if |ops| > 1 { FlatOne(Batch(f, ops[1..])); }
  }

  lemma SubsequenceDropsFirst<T>(x: T, a: seq<T>)
    ensures Subsequence(a, [x] + a)
  {
    SubsequenceSkips([], [], [x]);
    assert [] + [x] == [x];
    SubsequenceBefore([], [x], a);
    assert [] + a == a;
  }

  lemma HeadInOrder(s: State)
    requires BatchOk(s) && Possible(s, RunHead)
    ensures var t := Step(s, RunHead);
            && Departing(s, t) == (if s.queue == [] then [] else [s.queue[0]])
            && Subsequence(Gained(s, t) + Flat(t.running), Flat(s.running) + Flat(Departing(s, t)))
    ensures var t := Step(s, RunHead);
            s.queue != [] && Live(s, s.queue[0].fragment) && !Paused(s, s.queue[0].fragment) ==>
              Gained(s, t) + Flat(t.running) == Flat(Departing(s, t))
  {
    var t := Step(s, RunHead);
    HeadStep(s);
    assert Flat(s.running) == [];
    if s.queue != [] {
      var item := s.queue[0];
      var all := Flat([item]);
      FlatOne(item);
      EmptyOrAll(Gained(s, t) + Flat(t.running), all);
    }
  }

  lemma EmptyOrAll<T>(a: seq<T>, all: seq<T>)
    requires a == [] || a == all
    ensures Subsequence(a, [] + all)
  {
    assert [] + all == all;
    SubsequenceRefl(all);
    SubsequenceSkips([], [], all);
  }

  /** What taking the head off the queue gains and begins: all of it or nothing. */
  lemma HeadStep(s: State)
    requires Possible(s, RunHead)
    ensures var t := Step(s, RunHead);
            && (s.queue == [] ==> t == s && Departing(s, t) == [] && Gained(s, t) + Flat(t.running) == [])
            && (s.queue != [] ==>
                && Departing(s, t) == [s.queue[0]]
                && (Gained(s, t) + Flat(t.running) == [] || Gained(s, t) + Flat(t.running) == Flat([s.queue[0]]))
                && (Live(s, s.queue[0].fragment) && !Paused(s, s.queue[0].fragment) ==>
                      Gained(s, t) + Flat(t.running) == Flat([s.queue[0]])))
  {
    var t := Step(s, RunHead);
    if s.queue != [] {
      var item := s.queue[0];
      if Paused(s, item.fragment) {
        assert Gained(s, t) == [] && t.running == [];
      } else if item.Single? {
        SingleStep(s, item);
      } else {
        assert Gained(s, t) == [] && t.running == [item];
        assert [] + Flat([item]) == Flat([item]);
      }
    }
  }

  lemma SingleStep(s: State, item: Item)
    requires Possible(s, RunHead) && s.queue != [] && item == s.queue[0] && item.Single? && !Paused(s, item.fragment)
    ensures var t := Step(s, RunHead);
            Gained(s, t) + Flat(t.running) == if Live(s, item.fragment) then Flat([item]) else []
  {
    var t := Step(s, RunHead);
    FlatOne(item);
    TaggedFirst(item.fragment, [item.operation]);
    assert Tagged(item.fragment, [item.operation][1..]) == [];
    assert t.running == [] && Gained(s, t) == if Live(s, item.fragment) then [(item.fragment, item.operation)] else [];
  }

  /**
   * Main result, every possible run: what executes, and then what is under way, comes from what was under way and what
   * has left the queue, in the order of the queue.
   */
  lemma {:induction false} ExecutedInQueueOrder(s: State, events: seq<Event>)
    requires Shape(s) && PossibleRun(s, events)
    ensures var t := Run(s, events);
            && t.executed == s.executed + Gained(s, t)
            && Subsequence(Gained(s, t) + Flat(t.running), Flat(s.running) + Flat(Departures(s, events)))
    decreases |events|
  {
    if |events| > 0 {
      var s1 := Step(s, events[0]);
      var t := Run(s1, events[1..]);
      StepInOrder(s, events[0]);
      Grows(s, events[0]);
      ShapeKept(s, events[0]);
      ExecutedInQueueOrder(s1, events[1..]);
      FlatAppend(Departing(s, s1), Departures(s1, events[1..]));
      GainedJoins(s, s1, t);
      InOrderTwice(Gained(s, s1), Gained(s1, t), Flat(t.running), Flat(s1.running), Flat(s.running),
                   Flat(Departing(s, s1)), Flat(Departures(s1, events[1..])));
    } else {
      assert Gained(s, s) == [];
      assert [] + Flat(s.running) == Flat(s.running) && Flat(s.running) + [] == Flat(s.running);
      SubsequenceRefl(Flat(s.running));
    }
  }

  lemma Associate<T>(a: seq<T>, b: seq<T>, c: seq<T>)
    ensures (a + b) + c == a + (b + c)
  {
  }

  lemma GainedJoins(s: State, s1: State, t: State)
    requires s1.executed == s.executed + Gained(s, s1) && t.executed == s1.executed + Gained(s1, t)
    ensures t.executed == s.executed + Gained(s, t) && Gained(s, t) == Gained(s, s1) + Gained(s1, t)
  {
    Associate(s.executed, Gained(s, s1), Gained(s1, t));
  }

  lemma InOrderTwice<T>(g1: seq<T>, g2: seq<T>, r2: seq<T>, r1: seq<T>, r0: seq<T>, d1: seq<T>, d2: seq<T>)
    requires Subsequence(g1 + r1, r0 + d1) && Subsequence(g2 + r2, r1 + d2)
    ensures Subsequence((g1 + g2) + r2, r0 + (d1 + d2))
  {
    SubsequenceBehind(g1, g2 + r2, r1 + d2);
    SubsequenceBefore(g1 + r1, r0 + d1, d2);
    Associate(g1, g2, r2);
    Associate(g1, r1, d2);
    Associate(r0, d1, d2);
    SubsequenceTrans((g1 + g2) + r2, (g1 + r1) + d2, r0 + (d1 + d2));
  }

  // ---- nothing is left out but what is deferred, lost or dead

  /** The entries of these fragments. */
  function Only(fragments: set<Fragment>, log: seq<(Fragment, Operation)>): seq<(Fragment, Operation)>
    decreases |log|
  {
    if |log| == 0 then []
    else (if log[0].0 in fragments then [log[0]] else []) + Only(fragments, log[1..])
  }

  lemma {:induction false} OnlyAppend(fragments: set<Fragment>, a: seq<(Fragment, Operation)>,
                                      b: seq<(Fragment, Operation)>)
    ensures Only(fragments, a + b) == Only(fragments, a) + Only(fragments, b)
    decreases |a|
  {
    if |a| == 0 {
      assert a + b == b;
    } else {
      assert (a + b)[0] == a[0] && (a + b)[1..] == a[1..] + b;
      OnlyAppend(fragments, a[1..], b);
      Associate(if a[0].0 in fragments then [a[0]] else [], Only(fragments, a[1..]), Only(fragments, b));
    }
  }

  lemma {:induction false} OnlyTagged(fragments: set<Fragment>, f: Fragment, ops: seq<Operation>)
    ensures Only(fragments, Tagged(f, ops)) == if f in fragments then Tagged(f, ops) else []
    decreases |ops|
  {
    if |ops| > 0 {
      TaggedFirst(f, ops);
      OnlyTagged(fragments, f, ops[1..]);
      assert Tagged(f, ops)[1..] == Tagged(f, ops[1..]);
    }
  }

  /** In the run nothing of the fragment is deferred when its turn comes, or lost to an exception. */
  predicate Undisturbed(s: State, events: seq<Event>, f: Fragment)
    decreases |events|
  {
    |events| == 0 ||
    (&& !(events[0].RunHead? && s.queue != [] && s.queue[0].fragment == f && Paused(s, f))
     && !(events[0].Throw? && Abandoned(s, f) != [])
     && Undisturbed(Step(s, events[0]), events[1..], f))
  }

  lemma {:induction false} LivedBefore(s: State, events: seq<Event>, f: Fragment)
    requires Live(Run(s, events), f)
    ensures Live(s, f)
    decreases |events|
  {
    if |events| > 0 { LivedBefore(Step(s, events[0]), events[1..], f); }
  }

  lemma StepLeavesOutNothing(s: State, e: Event, fragments: set<Fragment>)
    requires Shape(s) && Possible(s, e) && forall f | f in fragments :: Live(Step(s, e), f) && Undisturbed(s, [e], f)
    ensures var t := Step(s, e);
            Only(fragments, Gained(s, t) + Flat(t.running)) == Only(fragments, Flat(s.running) + Flat(Departing(s, t)))
  {
    var t := Step(s, e);
    if e.RunNext? {
      NextLeavesOutNothing(s, fragments);
    } else if e.RunHead? {
      HeadLeavesOutNothing(s, fragments);
    } else if e.Throw? {
      ThrowLeavesOutNothing(s, fragments);
    } else if e.DestroyRoot? {
      NoneLeft(t, fragments);
      OnlyNone(Gained(s, t) + Flat(t.running));
      OnlyNone(Flat(s.running) + Flat(Departing(s, t)));
    } else {
      assert Gained(s, t) == [] && t.running == s.running && Departing(s, t) == [];
      assert [] + Flat(s.running) == Flat(s.running) + [];
    }
  }

  lemma NoneLeft(t: State, fragments: set<Fragment>)
    requires t.destroyed && forall f | f in fragments :: Live(t, f)
    ensures fragments == {}
  {
    assert forall f: Fragment :: f in fragments ==> !Live(t, f);
  }

  lemma {:induction false} OnlyNone(log: seq<(Fragment, Operation)>)
    ensures Only({}, log) == []
    decreases |log|
  {
    if |log| > 0 { OnlyNone(log[1..]); }
  }

  lemma NextLeavesOutNothing(s: State, fragments: set<Fragment>)
    requires BatchOk(s) && Possible(s, RunNext) && forall f | f in fragments :: Live(s, f)
    ensures var t := Step(s, RunNext);
            Only(fragments, Gained(s, t) + Flat(t.running)) == Only(fragments, Flat(s.running) + Flat(Departing(s, t)))
  {
    var t, f, ops := Step(s, RunNext), s.running[0].fragment, s.running[0].operations;
    NextInOrder(s);
    assert Flat(s.running) + Flat(Departing(s, t)) == Flat(s.running);
    if !Live(s, f) {
      assert s.running == [s.running[0]] && Gained(s, t) == [];
      FlatOne(s.running[0]);
      OnlyTagged(fragments, f, ops);
      if |ops| > 0 {
        LeftOver(f, ops);
        OnlyTagged(fragments, f, ops[1..]);
        assert [] + Tagged(f, ops[1..]) == Tagged(f, ops[1..]);
      }
    }
  }

  lemma HeadLeavesOutNothing(s: State, fragments: set<Fragment>)
    requires BatchOk(s) && Possible(s, RunHead)
    requires forall f | f in fragments :: Live(s, f) && (s.queue != [] && s.queue[0].fragment == f ==> !Paused(s, f))
    ensures var t := Step(s, RunHead);
            Only(fragments, Gained(s, t) + Flat(t.running)) == Only(fragments, Flat(s.running) + Flat(Departing(s, t)))
  {
    var t := Step(s, RunHead);
    HeadInOrder(s);
    assert Flat(s.running) == [] && [] + Flat(Departing(s, t)) == Flat(Departing(s, t));
    if s.queue != [] && !(Live(s, s.queue[0].fragment) && !Paused(s, s.queue[0].fragment)) {
      var item := s.queue[0];
      FlatOne(item);
      OnlyTagged(fragments, item.fragment, Operations(item));
      assert item.fragment !in fragments && Gained(s, t) == [];
      if t.running != [] {
        assert t.running == [item];
        assert [] + Flat(t.running) == Flat(t.running);
      }
    }
  }

  lemma ThrowLeavesOutNothing(s: State, fragments: set<Fragment>)
    requires BatchOk(s) && forall f | f in fragments :: Live(s, f) && Abandoned(s, f) == []
    ensures var t := Step(s, Throw);
            Only(fragments, Gained(s, t) + Flat(t.running)) == Only(fragments, Flat(s.running) + Flat(Departing(s, t)))
  {
    var t := Step(s, Throw);
    assert Gained(s, t) == [] && t.running == [] && Departing(s, t) == [];
    assert Flat(s.running) + [] == Flat(s.running);
    if s.running != [] {
      var item := s.running[0];
      RunningIs(s, item.fragment);
      assert s.running == [item];
      FlatOne(item);
      OnlyTagged(fragments, item.fragment, Operations(item));
    }
  }

  /**
   * Main result: of fragments that live to the end, and that are not deferred and lose nothing in between, everything
   * under way and everything that leaves the queue executes or is under way, in the order of the queue across
   * fragments.
   */
  lemma {:induction false} ExecutesInQueueOrder(s: State, events: seq<Event>, fragments: set<Fragment>)
    requires Shape(s) && PossibleRun(s, events)
    requires forall f | f in fragments :: Live(Run(s, events), f) && Undisturbed(s, events, f)
    ensures var t := Run(s, events);
            Only(fragments, Gained(s, t) + Flat(t.running))
            == Only(fragments, Flat(s.running) + Flat(Departures(s, events)))
    decreases |events|
  {
    if |events| > 0 {
      var e, s1 := events[0], Step(s, events[0]);
      var t := Run(s1, events[1..]);
      forall f | f in fragments ensures Live(s1, f) && Undisturbed(s, [e], f) {
        LivedBefore(s1, events[1..], f);
        assert Undisturbed(Step(s, e), [e][1..], f);
      }
      StepLeavesOutNothing(s, e, fragments);
      ShapeKept(s, e);
      ExecutesInQueueOrder(s1, events[1..], fragments);
      Grows(s, e);
      ExecutedInQueueOrder(s1, events[1..]);
      FlatAppend(Departing(s, s1), Departures(s1, events[1..]));
      GainedJoins(s, s1, t);
      OnlyTwice(fragments, Gained(s, s1), Gained(s1, t), Flat(t.running), Flat(s1.running), Flat(s.running),
                Flat(Departing(s, s1)), Flat(Departures(s1, events[1..])));
    } else {
      assert Gained(s, s) == [];
      assert [] + Flat(s.running) == Flat(s.running) + [];
    }
  }

  lemma OnlyTwice(fragments: set<Fragment>, g1: seq<(Fragment, Operation)>, g2: seq<(Fragment, Operation)>,
                  r2: seq<(Fragment, Operation)>, r1: seq<(Fragment, Operation)>, r0: seq<(Fragment, Operation)>,
                  d1: seq<(Fragment, Operation)>, d2: seq<(Fragment, Operation)>)
    requires Only(fragments, g1 + r1) == Only(fragments, r0 + d1)
    requires Only(fragments, g2 + r2) == Only(fragments, r1 + d2)
    ensures Only(fragments, (g1 + g2) + r2) == Only(fragments, r0 + (d1 + d2))
  {
    calc {
      Only(fragments, (g1 + g2) + r2);
    == { Associate(g1, g2, r2); OnlyAppend(fragments, g1, g2 + r2); OnlyAppend(fragments, r1, d2); }
      Only(fragments, g1) + (Only(fragments, r1) + Only(fragments, d2));
    == { Associate(Only(fragments, g1), Only(fragments, r1), Only(fragments, d2)); OnlyAppend(fragments, g1, r1); }
      Only(fragments, r0 + d1) + Only(fragments, d2);
    == { OnlyAppend(fragments, r0 + d1, d2); Associate(r0, d1, d2); }
      Only(fragments, r0 + (d1 + d2));
    }
  }

  // ---- without pauses and exceptions

  predicate NonePaused(s: State) { forall f | f in s.retention :: s.retention[f] == Retention(false, [], 0) }

  predicate Plain(e: Event) { !e.Pause? && !e.Throw? }

  /** What is accepted is what enters the queue. */
  lemma AcceptedArrives(s: State, e: Event)
    requires NonePaused(s) && Plain(e)
    ensures NonePaused(Step(s, e)) && Step(s, e).accepted == s.accepted + Flat(Arriving(s, Step(s, e)))
  {
    var t := Step(s, e);
    if e.Schedule? && Live(s, e.fragment) {
      assert Arriving(s, t) == [Single(e.fragment, e.operation)];
      FlatOne(Single(e.fragment, e.operation));
      TaggedFirst(e.fragment, [e.operation]);
      assert Tagged(e.fragment, [e.operation][1..]) == [];
    } else {
      assert s.accepted + [] == s.accepted;
    }
  }

  lemma {:induction false} AllAcceptedArrives(s: State, events: seq<Event>)
    requires NonePaused(s) && forall e | e in events :: Plain(e)
    ensures Run(s, events).accepted == s.accepted + Flat(Arrivals(s, events))
    decreases |events|
  {
    if |events| > 0 {
      var s1 := Step(s, events[0]);
      AcceptedArrives(s, events[0]);
      AllAcceptedArrives(s1, events[1..]);
      FlatAppend(Arriving(s, s1), Arrivals(s1, events[1..]));
      Associate(s.accepted, Flat(Arriving(s, s1)), Flat(Arrivals(s1, events[1..])));
    } else {
      assert s.accepted + [] == s.accepted;
    }
  }

  lemma {:induction false} PlainIsUndisturbed(s: State, events: seq<Event>, f: Fragment)
    requires NonePaused(s) && forall e | e in events :: Plain(e)
    ensures Undisturbed(s, events, f)
    decreases |events|
  {
    if |events| > 0 {
      AcceptedArrives(s, events[0]);
      PlainIsUndisturbed(Step(s, events[0]), events[1..], f);
    }
  }

  lemma AcceptedIsFlat(s: State, events: seq<Event>)
    requires Initial(s) && forall e | e in events :: Plain(e)
    ensures Run(s, events).accepted == Flat(Departures(s, events)) + Flat(Run(s, events).queue)
  {
    AllAcceptedArrives(s, events);
    FirstInFirstOut(s, events);
    FlatAppend(Departures(s, events), Run(s, events).queue);
    assert [] + Arrivals(s, events) == Arrivals(s, events);
    assert [] + Flat(Arrivals(s, events)) == Flat(Arrivals(s, events));
  }

  lemma ExecutedIsFlat(s: State, events: seq<Event>, fragments: set<Fragment>)
    requires Initial(s) && PossibleRun(s, events) && (forall e | e in events :: Plain(e))
    requires forall f | f in fragments :: Live(Run(s, events), f)
    ensures var t := Run(s, events);
            Only(fragments, t.executed + Flat(t.running)) == Only(fragments, Flat(Departures(s, events)))
  {
    InitialInvariant(s);
    forall f: Fragment ensures Undisturbed(s, events, f) { PlainIsUndisturbed(s, events, f); }
    ExecutesInQueueOrder(s, events, fragments);
    ExecutedInQueueOrder(s, events);
    assert Run(s, events).executed == Gained(s, Run(s, events));
    assert [] + Flat(Departures(s, events)) == Flat(Departures(s, events));
  }

  /**
   * Without pauses and exceptions the operations of all fragments that live to the end execute in the one order in
   * which they were accepted: what has executed is the front of it, the rest is under way or queued.
   */
  lemma AcceptedOrderIsExecutedOrder(s: State, events: seq<Event>, fragments: set<Fragment>)
    requires Initial(s) && PossibleRun(s, events) && (forall e | e in events :: Plain(e))
    requires forall f | f in fragments :: Live(Run(s, events), f)
    ensures var t := Run(s, events);
            Only(fragments, t.accepted)
            == Only(fragments, t.executed) + Only(fragments, Flat(t.running) + Flat(t.queue))
  {
    var t := Run(s, events);
    AcceptedIsFlat(s, events);
    ExecutedIsFlat(s, events, fragments);
    OnlyAppend(fragments, Flat(Departures(s, events)), Flat(t.queue));
    OnlyAppend(fragments, t.executed, Flat(t.running));
    OnlyAppend(fragments, Flat(t.running), Flat(t.queue));
    Associate(Only(fragments, t.executed), Only(fragments, Flat(t.running)), Only(fragments, Flat(t.queue)));
  }

  /** What was resumed waits behind what another fragment has queued. */
  lemma ResumedWaitsItsTurn()
    ensures var s := Fresh({1});
            var events := [Pause(1), Schedule(1, 10), Schedule(2, 20), Resume(1)] + [BeginFlush, RunHead, RunHead,
                RunNext];
            PossibleRun(s, events) && Run(s, events).executed == [(2, 20), (1, 10)]
  {
    ResumedIsLast();
    OthersFirst();
    RunAppend(Fresh({1}), [Pause(1), Schedule(1, 10), Schedule(2, 20), Resume(1)],
        [BeginFlush, RunHead, RunHead, RunNext]);
  }

  const TWO_WAITING := State([Single(2, 20), Batch(1, [10])], [], map[1 := Retention(false, [], 0)], {}, false, false,
    [(1, 10), (2, 20)], [], [])

  lemma ResumedIsLast()
    ensures var events := [Pause(1), Schedule(1, 10), Schedule(2, 20), Resume(1)];
            PossibleRun(Fresh({1}), events) && Run(Fresh({1}), events) == TWO_WAITING
  {
    var s0 := Fresh({1});
    var s1 := Step(s0, Pause(1));
    assert s1 == State([], [], map[1 := Retention(true, [], 0)], {}, false, false, [], [], []);
    var s2 := Step(s1, Schedule(1, 10));
    assert s2.retention[1].pending == [10];
    assert s2 == State([], [], map[1 := Retention(true, [10], 0)], {}, false, false, [(1, 10)], [], []);
    var s3 := Step(s2, Schedule(2, 20));
    assert s3.queue == [Single(2, 20)] && s3.accepted == [(1, 10), (2, 20)];
    FourSteps(s0, Pause(1), Schedule(1, 10), Schedule(2, 20), Resume(1));
  }

  lemma OthersFirst()
    ensures PossibleRun(TWO_WAITING, [BeginFlush, RunHead, RunHead, RunNext])
    ensures Run(TWO_WAITING, [BeginFlush, RunHead, RunHead, RunNext]).executed == [(2, 20), (1, 10)]
  {
    var s1 := Step(TWO_WAITING, BeginFlush);
    var s2 := Step(s1, RunHead);
    assert s2.queue == [Batch(1, [10])] && s2.executed == [(2, 20)];
    var s3 := Step(s2, RunHead);
    assert s3.running == [Batch(1, [10])];
    FourSteps(TWO_WAITING, BeginFlush, RunHead, RunHead, RunNext);
  }
}
