/** The root scheduler and the retention adapters as the objects that change in place. */
module DomScheduler {
  import opened DomWork

  /** What an operation makes happen while it runs, and whether it throws at its end. */
  datatype Reaction = Reaction(events: seq<Event>, throws: bool)

  predicate CallBack(e: Event) { e.Schedule? || e.Pause? || e.Resume? || e.Dispose? || e.DestroyRoot? }

  ghost predicate CallBacks(reactions: seq<Reaction>) {
    forall r, e | r in reactions && e in r.events :: CallBack(e)
  }

  /** The k-th operation executed has the k-th reaction; those beyond the list do nothing and do not throw. */
  function Rest(reactions: seq<Reaction>, ran: nat): seq<Reaction> {
    if ran <= |reactions| then reactions[ran..] else []
  }

  /** Of the operations executed only the last one may throw, and the run of the flush ends with it. */
  predicate Stopped(reactions: seq<Reaction>, ran: nat, threw: bool) {
    && (forall k | 0 <= k < ran - 1 && k < |reactions| :: !reactions[k].throws)
    && (threw <==> 0 < ran <= |reactions| && reactions[ran - 1].throws)
  }

  lemma StoppedLater(reactions: seq<Reaction>, m: nat, n: nat, threw: bool)
    requires Stopped(reactions, m, false) && Stopped(Rest(reactions, m), n, threw)
    ensures Stopped(reactions, m + n, threw) && Rest(Rest(reactions, m), n) == Rest(reactions, m + n)
  {
    forall k | 0 <= k < m + n - 1 && k < |reactions| ensures !reactions[k].throws {
      if k >= m { assert reactions[k] == Rest(reactions, m)[k - m]; }
    }
  }

  /** The events in the middle of a flush. */
  ghost predicate Inner(e: Event, reactions: seq<Reaction>) {
    e.RunHead? || e.RunNext? || (CallBack(e) && exists r :: r in reactions && e in r.events)
  }

  ghost predicate AllInner(trace: seq<Event>, reactions: seq<Reaction>) { forall e | e in trace :: Inner(e, reactions) }

  lemma InnerFromRest(trace: seq<Event>, reactions: seq<Reaction>, m: nat)
    requires AllInner(trace, Rest(reactions, m))
    ensures AllInner(trace, reactions)
  {
    forall e | e in trace ensures Inner(e, reactions) {
      assert Inner(e, Rest(reactions, m));
      assert forall r | r in Rest(reactions, m) :: r in reactions;
    }
  }

  lemma {:induction false} NoThrowNoLoss(s: State, events: seq<Event>, f: Fragment)
    requires forall e | e in events :: !e.Throw?
    ensures Losses(s, events, f) == 0
    decreases |events|
  {
    if |events| > 0 { NoThrowNoLoss(Step(s, events[0]), events[1..], f); }
  }

  lemma RunLast(s: State, a: seq<Event>, e: Event)
    ensures Run(s, a + [e]) == Step(Run(s, a), e)
    ensures PossibleRun(s, a + [e]) <==> PossibleRun(s, a) && Possible(Run(s, a), e)
  {
    RunAppend(s, a, [e]);
    assert [e][1..] == [];
  }

  lemma RunFrom(s: State, e: Event, a: seq<Event>)
    ensures Run(s, [e] + a) == Run(Step(s, e), a)
    ensures PossibleRun(s, [e] + a) <==> Possible(s, e) && PossibleRun(Step(s, e), a)
  {
    assert ([e] + a)[1..] == a;
  }

  /** From `s` a flush has come to `t` by the events of `trace`. */
  ghost predicate Led(s: State, t: State, reactions: seq<Reaction>, trace: seq<Event>) {
    t == Run(s, trace) && PossibleRun(s, trace) && AllInner(trace, reactions)
  }

  /** Executing `ran` operations used up their reactions, and only the last of them may have thrown. */
  predicate Used(ran: int, reactions: seq<Reaction>, left: seq<Reaction>, threw: bool) {
    ran >= 0 && left == Rest(reactions, ran) && Stopped(reactions, ran, threw)
  }

  lemma LedThen(s: State, m: State, t: State, reactions: seq<Reaction>, left: seq<Reaction>, ran: nat,
    trace: seq<Event>, turn: seq<Event>)
    requires Led(s, m, reactions, trace) && Led(m, t, left, turn) && left == Rest(reactions, ran)
    ensures Led(s, t, reactions, trace + turn)
  {
    RunAppend(s, trace, turn);
    InnerFromRest(turn, reactions, ran);
  }

  ghost predicate Progress(s: State, t: State, reactions: seq<Reaction>, left: seq<Reaction>, threw: bool,
    trace: seq<Event>)
  {
    Led(s, t, reactions, trace) && Used(|t.executed| - |s.executed|, reactions, left, threw)
  }

  lemma ProgressThen(s: State, m: State, t: State, reactions: seq<Reaction>, left: seq<Reaction>,
    left': seq<Reaction>, threw: bool, trace: seq<Event>, turn: seq<Event>)
    requires Progress(s, m, reactions, left, false, trace) && Progress(m, t, left, left', threw, turn)
    ensures Progress(s, t, reactions, left', threw, trace + turn)
  {
    LedThen(s, m, t, reactions, left, |m.executed| - |s.executed|, trace, turn);
    StoppedLater(reactions, |m.executed| - |s.executed|, |t.executed| - |m.executed|, threw);
  }

  lemma ProgressNone(s: State, reactions: seq<Reaction>)
    ensures Progress(s, s, reactions, reactions, false, [])
  {
  }

  lemma ProgressStep(s: State, e: Event, reactions: seq<Reaction>)
    requires Possible(s, e) && (e.RunHead? || e.RunNext?)
    requires |Step(s, e).executed| == |s.executed|
    ensures Progress(s, Step(s, e), reactions, reactions, false, [e])
  {
    assert [e][1..] == [];
  }

  lemma ProgressReact(s: State, e: Event, t: State, reactions: seq<Reaction>, threw: bool, turn: seq<Event>)
    requires Possible(s, e) && (e.RunHead? || e.RunNext?)
    requires |Step(s, e).executed| == |s.executed| + 1 == |t.executed|
    requires Led(Step(s, e), t, reactions, turn) && Stopped(reactions, 1, threw)
    ensures Progress(s, t, reactions, Rest(reactions, 1), threw, [e] + turn)
  {
    RunFrom(s, e, turn);
  }

  /** A flush that did not throw lost nothing and left nothing outstanding for a live unpaused fragment. */
  ghost predicate Complete(s: State, t: State) {
    && (forall f: Fragment :: Gap(t, f) == Gap(s, f))
    && (forall f: Fragment | Live(t, f) && !Paused(t, f) :: Outstanding(t, f) == [])
  }

  /** A flush whose operations did nothing to the scheduler ran all it could, and nothing else changed. */
  ghost predicate Undisturbed(s: State, t: State) {
    && t.disposed == s.disposed && t.destroyed == s.destroyed && t.accepted == s.accepted
    && (forall f: Fragment :: Paused(t, f) == Paused(s, f))
    && (forall f: Fragment | Live(s, f) :: RanAll(s, t, f))
  }

  lemma FlushTrace(start: State, inner: seq<Event>, last: Event)
    requires Possible(start, BeginFlush) && PossibleRun(Step(start, BeginFlush), inner)
    requires Possible(Run(Step(start, BeginFlush), inner), last)
    ensures PossibleRun(start, [BeginFlush] + inner + [last])
    ensures Run(start, [BeginFlush] + inner + [last]) == Step(Run(Step(start, BeginFlush), inner), last)
  {
    RunFrom(start, BeginFlush, inner);
    RunLast(start, [BeginFlush] + inner, last);
  }

  lemma FlushLosesNothing(start: State, inner: seq<Event>, reactions: seq<Reaction>)
    requires Shape(start) && AllInner(inner, reactions)
    requires PossibleRun(start, [BeginFlush] + inner + [EndFlush])
    ensures forall f: Fragment :: Gap(Run(start, [BeginFlush] + inner + [EndFlush]), f) == Gap(start, f)
  {
    var trace := [BeginFlush] + inner + [EndFlush];
    forall e | e in trace ensures !e.Throw? { assert e in inner ==> Inner(e, reactions); }
    forall f: Fragment ensures Gap(Run(start, trace), f) == Gap(start, f) {
      NoThrowNoLoss(start, trace, f);
      RunGap(start, trace, f);
    }
  }

  // ---- a flush whose operations do nothing to the scheduler and do not throw

  /** What was executed between two states, if the logs only grew by it. */
  ghost predicate OnlyExecuted(s: State, t: State) {
    s.executed <= t.executed && t.settled == s.settled + t.executed[|s.executed|..]
  }

  /** What such a flush leaves alone: lives, pauses, the accepted log, and what each fragment has in all. */
  ghost predicate Quiet(s: State, t: State) {
    && t.disposed == s.disposed && t.destroyed == s.destroyed && t.accepted == s.accepted
    && OnlyExecuted(s, t)
    && (forall f: Fragment :: Paused(t, f) == Paused(s, f))
    && (forall f: Fragment | Live(s, f) :: Total(t, f) == Total(s, f))
    && (forall f: Fragment | Paused(s, f) :: Of(t.executed, f) == Of(s.executed, f))
  }

  lemma {:induction false} OfAppend(a: seq<(Fragment, Operation)>, b: seq<(Fragment, Operation)>, f: Fragment)
    ensures Of(a + b, f) == Of(a, f) + Of(b, f)
    decreases |b|
  {
    if |b| == 0 {
      assert a + b == a;
    } else {
      var b1, last := b[..|b| - 1], b[|b| - 1];
      OfAppend(a, b1, f);
      assert a + b == (a + b1) + [last] && b == b1 + [last];
      OfSnoc(a + b1, last.0, last.1, f);
      OfSnoc(b1, last.0, last.1, f);
    }
  }

  lemma SameGain(s: State, t: State, f: Fragment)
    requires OnlyExecuted(s, t)
    ensures exists x ::
              Of(t.executed, f) == Of(s.executed, f) + x && Of(t.settled, f) == Of(s.settled, f) + x
  {
    var more := t.executed[|s.executed|..];
    assert t.executed == s.executed + more;
    OfAppend(s.executed, more, f);
    OfAppend(s.settled, more, f);
  }

  lemma OneMore(s: State, t: State, u: State, x: seq<(Fragment, Operation)>)
    requires OnlyExecuted(s, t) && u.executed == t.executed + x && u.settled == t.settled + x
    ensures OnlyExecuted(s, u)
  {
    assert u.executed[|s.executed|..] == t.executed[|s.executed|..] + x;
  }

  /** The step that the loops of a flush take, on a batch of a paused fragment excepted. */
  lemma QuietStep(start: State, s: State, e: Event)
    requires Quiet(start, s) && Shape(s) && Possible(s, e) && (e.RunHead? || e.RunNext?) && NoneWhilePaused(s)
    ensures Quiet(start, Step(s, e)) && NoneWhilePaused(Step(s, e))
  {
    var s' := Step(s, e);
    PausedBatchIff(s, e);
    forall f: Fragment | Live(start, f) ensures Total(s', f) == Total(start, f) { FlushStepTotal(s, e, f); }
    OneMore(start, s, s', s'.executed[|s.executed|..]);
    forall f: Fragment | Paused(start, f) ensures Of(s'.executed, f) == Of(start.executed, f) {
      assert Paused(s, f);
      PausedRunsNothing(s, e, f);
    }
  }

  lemma PausedRunsNothing(s: State, e: Event, f: Fragment)
    requires Shape(s) && Possible(s, e) && (e.RunHead? || e.RunNext?) && Paused(s, f) && Queued(s.running, f) == []
    ensures Of(Step(s, e).executed, f) == Of(s.executed, f)
  {
    if e.RunNext? {
      RunNextLogs(s, f);
      RunningIs(s, f);
    } else if s.queue != [] {
      RunHeadLogs(s, f);
    }
  }

  /** All that was outstanding for an unpaused fragment has run, in that order; a paused one keeps its own. */
  ghost predicate RanAll(s: State, t: State, f: Fragment) {
    if Paused(s, f) then Of(t.executed, f) == Of(s.executed, f) && Outstanding(t, f) == Outstanding(s, f)
    else Of(t.executed, f) == Of(s.executed, f) + Outstanding(s, f)
  }

  lemma QuietRanAll(start: State, s: State, f: Fragment)
    requires Quiet(start, s) && Shape(s) && s.queue == [] && s.running == [] && Live(start, f)
    ensures RanAll(start, s, f)
  {
    assert RetentionOk(s, f);
    assert Total(s, f) == Total(start, f);
    SameGain(start, s, f);
    var x :| Of(s.executed, f) == Of(start.executed, f) + x && Of(s.settled, f) == Of(start.settled, f) + x;
    if Paused(start, f) {
      assert Of(s.executed, f) == Of(start.executed, f);
      Stays(Of(start.executed, f), Of(start.settled, f), x, Outstanding(s, f), Outstanding(start, f));
    } else {
      assert !Paused(s, f) && Outstanding(s, f) == [];
      Cancel(Of(start.settled, f), x, [], Outstanding(start, f));
    }
  }

  lemma Stays(e: seq<Operation>, d: seq<Operation>, x: seq<Operation>, o: seq<Operation>, o': seq<Operation>)
    requires e + x == e && (d + x) + o == d + o'
    ensures o == o'
  {
    assert |e + x| == |e| + |x|;
    assert x == [];
    Cancel(d, x, o, o');
  }

  lemma {:induction false} QuietRun(start: State, s: State, inner: seq<Event>)
    requires Quiet(start, s) && Shape(s) && NoneWhilePaused(s) && PossibleRun(s, inner) && AllInner(inner, [])
    ensures Quiet(start, Run(s, inner)) && Shape(Run(s, inner))
    decreases |inner|
  {
    if |inner| > 0 {
      assert Inner(inner[0], []);
      QuietStep(start, s, inner[0]);
      ShapeKept(s, inner[0]);
      QuietRun(start, Step(s, inner[0]), inner[1..]);
    }
  }

  /** A flush whose operations do nothing to the scheduler. */
  lemma QuietFlush(start: State, inner: seq<Event>)
    requires Shape(start) && AllInner(inner, []) && PossibleRun(start, [BeginFlush] + inner + [EndFlush])
    ensures Undisturbed(start, Run(start, [BeginFlush] + inner + [EndFlush]))
  {
    var begun := Step(start, BeginFlush);
    RunFrom(start, BeginFlush, inner);
    RunLast(start, [BeginFlush] + inner, EndFlush);
    QuietStart(start);
    ShapeKept(start, BeginFlush);
    QuietRun(start, begun, inner);
    var s := Run(begun, inner);
    forall f: Fragment
      ensures Paused(Step(s, EndFlush), f) == Paused(start, f)
      ensures Live(start, f) ==> RanAll(start, Step(s, EndFlush), f)
    {
      EndKeeps(s, f);
      if Live(start, f) { QuietRanAll(start, s, f); }
    }
  }

  lemma QuietStart(start: State)
    requires Shape(start) && !start.flushing
    ensures Quiet(start, Step(start, BeginFlush)) && NoneWhilePaused(Step(start, BeginFlush))
  {
    var s := Step(start, BeginFlush);
    assert s.executed[|start.executed|..] == [] && s.settled + [] == s.settled && s.running == [];
    forall f: Fragment ensures Total(s, f) == Total(start, f) { BeginKeeps(start, f); }
  }

  lemma BeginKeeps(s: State, f: Fragment)
    ensures Total(Step(s, BeginFlush), f) == Total(s, f)
  {
  }

  lemma EndKeeps(s: State, f: Fragment)
    ensures Outstanding(Step(s, EndFlush), f) == Outstanding(s, f)
    ensures Step(s, EndFlush).executed == s.executed && Paused(Step(s, EndFlush), f) == Paused(s, f)
  {
  }

  lemma AllRun(s: State)
    requires Shape(s) && s.queue == [] && s.running == []
    ensures forall f: Fragment | !Paused(s, f) :: Outstanding(s, f) == []
  {
    forall f: Fragment | !Paused(s, f) ensures Outstanding(s, f) == [] { assert RetentionOk(s, f); }
  }

  lemma Cancel(a: seq<Operation>, x: seq<Operation>, o: seq<Operation>, y: seq<Operation>)
    requires (a + x) + o == a + y
    ensures x + o == y && (o == [] ==> x == y)
  {
    assert x + o == ((a + x) + o)[|a|..] && y == (a + y)[|a|..];
    if o == [] { assert x + o == x; }
  }

  class RootDom {
    var queue: seq<Item>
    var running: seq<Item>
    var retention: map<Fragment, Retention>
    var disposed: set<Fragment>
    var destroyed: bool
    var flushing: bool
    ghost var accepted: seq<(Fragment, Operation)>
    ghost var settled: seq<(Fragment, Operation)>
    ghost var executed: seq<(Fragment, Operation)>

    ghost function View(): State
      reads this
    {
      State(queue, running, retention, disposed, destroyed, flushing, accepted, settled, executed)
    }

    ghost predicate Valid()
      reads this
    {
      Invariant(View())
    }

    constructor (watching: set<Fragment>)
      ensures Valid() && Initial(View()) && retention.Keys == watching
    {
      queue, running, disposed, destroyed, flushing := [], [], {}, false, false;
      retention := map f | f in watching :: Retention(false, [], 0);
      accepted, settled, executed := [], [], [];
      new;
      InitialInvariant(View());
    }

    /** `scheduleCompiledFragmentDomWork` */
    method Schedule(f: Fragment, op: Operation) returns (taken: bool)
      requires Valid()
      modifies this
      ensures Valid() && View() == Step(old(View()), Event.Schedule(f, op))
      ensures taken <==> old(Live(View(), f))
    {
      StepKeepsInvariant(View(), Event.Schedule(f, op));
      if f in disposed || destroyed { return false; }
      accepted := accepted + [(f, op)];
      if f in retention && retention[f].paused {
        retention := retention[f := retention[f].(pending := retention[f].pending + [op])];
      } else {
        queue := queue + [Single(f, op)];
      }
      return true;
    }

    /** `$viewRetentionPause` */
    method Pause(f: Fragment)
      requires Valid()
      modifies this
      ensures Valid() && View() == Step(old(View()), Event.Pause(f))
    {
      StepKeepsInvariant(View(), Event.Pause(f));
      if f in retention {
        retention := retention[f := retention[f].(paused := true, deferred := 0)];
      }
    }

    /** `$viewRetentionResume` and `flushPausedCompiledFragmentDomWork` */
    method Resume(f: Fragment)
      requires Valid()
      modifies this
      ensures Valid() && View() == Step(old(View()), Event.Resume(f))
    {
      StepKeepsInvariant(View(), Event.Resume(f));
      if f !in retention || !retention[f].paused { return; }
      var pending := retention[f].pending;
      retention := retention[f := Retention(false, [], 0)];
      if pending == [] { return; }
      if f in disposed || destroyed { return; }
      queue := queue + [Batch(f, pending)];
    }

    /** The part of disposal that concerns DOM work. */
    method Dispose(f: Fragment)
      requires Valid()
      modifies this
      ensures Valid() && View() == Step(old(View()), Event.Dispose(f))
    {
      StepKeepsInvariant(View(), Event.Dispose(f));
      disposed := disposed + {f};
      retention := retention - {f};
    }

    /** `destroy` of the root scheduler */
    method DestroyRoot()
      requires Valid()
      modifies this
      ensures Valid() && View() == Step(old(View()), Event.DestroyRoot)
    {
      StepKeepsInvariant(View(), Event.DestroyRoot);
      destroyed := true;
      queue := [];
    }

    /** What an operation does when it calls back; it can schedule, dispose, pause and resume, not flush. */
    method Perform(events: seq<Event>)
      requires Valid() && flushing && forall e | e in events :: CallBack(e)
      modifies this
      ensures Valid() && flushing && running == old(running) && executed == old(executed)
      ensures View() == Run(old(View()), events) && PossibleRun(old(View()), events)
    {
      var i := 0;
      while i < |events|
        invariant 0 <= i <= |events| && Valid() && flushing && running == old(running) && executed == old(executed)
        invariant View() == Run(old(View()), events[..i]) && PossibleRun(old(View()), events[..i])
      {
        RunLast(old(View()), events[..i], events[i]);
        assert events[..i + 1] == events[..i] + [events[i]];
        assert events[i] in events;
        match events[i] {
          case Schedule(f, op) => var _ := Schedule(f, op);
          case Pause(f) => Pause(f);
          case Resume(f) => Resume(f);
          case Dispose(f) => Dispose(f);
          case DestroyRoot => DestroyRoot();
        }
        i := i + 1;
      }
      assert events[..|events|] == events;
    }

    /** The operation just executed does what the next reaction says, if there is one. */
    method React(reactions: seq<Reaction>) returns (left: seq<Reaction>, threw: bool, ghost turn: seq<Event>)
      requires Valid() && flushing && CallBacks(reactions)
      modifies this
      ensures Valid() && flushing && running == old(running) && executed == old(executed)
      ensures Led(old(View()), View(), reactions, turn)
      ensures left == Rest(reactions, 1) && CallBacks(left) && Stopped(reactions, 1, threw)
      ensures reactions == [] ==> turn == [] && View() == old(View())
    {
      if reactions == [] { return [], false, []; }
      Perform(reactions[0].events);
      return reactions[1..], reactions[0].throws, reactions[0].events;
    }

    /**
     * `flush`; the k-th operation it executes does what the k-th reaction says, throwing included. It is a run of
     * possible steps. Unless an operation throws it empties the queue, leaves nothing outstanding for a fragment that
     * is live and unpaused at its end, and loses nothing. If the operations do nothing to the scheduler, it runs all
     * that is outstanding for each live unpaused fragment and defers all that it finds for a paused one.
     */
    method Flush(reactions: seq<Reaction>) returns (threw: bool, ghost trace: seq<Event>)
      requires Valid() && !flushing && running == [] && CallBacks(reactions)
      modifies this
      ensures Valid() && !flushing && running == [] && |executed| >= |old(executed)|
      ensures Stopped(reactions, |executed| - |old(executed)|, threw)
      ensures exists inner :: AllInner(inner, reactions)
                && trace == [BeginFlush] + inner + [if threw then Throw else EndFlush]
      ensures PossibleRun(old(View()), trace) && View() == Run(old(View()), trace)
      ensures !threw ==> queue == [] && Complete(old(View()), View())
      ensures reactions == [] ==> Undisturbed(old(View()), View())
    {
      ghost var start := View();
      StepKeepsInvariant(start, BeginFlush);
      flushing := true;
      ghost var inner: seq<Event>;
      threw, inner := RunAll(reactions);
      FlushTrace(start, inner, if threw then Throw else EndFlush);
      trace := [BeginFlush] + inner + [if threw then Throw else EndFlush];
      if threw {
        Leave();
      } else {
        StepKeepsInvariant(View(), EndFlush);
        flushing := false;
        FlushLosesNothing(start, inner, reactions);
        AllRun(View());
      }
      if reactions == [] { QuietFlush(start, inner); }
    }

    /** Its loop. */
    method RunAll(reactions: seq<Reaction>) returns (threw: bool, ghost inner: seq<Event>)
      requires Valid() && flushing && running == [] && CallBacks(reactions)
      modifies this
      ensures Valid() && flushing && (!threw ==> queue == [] && running == [])
      ensures |executed| >= |old(executed)| && Stopped(reactions, |executed| - |old(executed)|, threw)
      ensures Led(old(View()), View(), reactions, inner)
    {
      ghost var begun := View();
      var left := reactions;
      threw, inner := false, [];
      ProgressNone(begun, reactions);
      while queue != [] && !threw
        invariant Valid() && flushing && CallBacks(left) && (!threw ==> running == [])
        invariant Progress(begun, View(), reactions, left, threw, inner)
        decreases |left|, |queue|
      {
        ghost var turn: seq<Event>;
        ghost var before, unused := View(), left;
        left, threw, turn := RunOne(left);
        ProgressThen(begun, before, View(), reactions, unused, left, threw, inner, turn);
        inner := inner + turn;
      }
    }

    /** The exception leaves the closure and the loop of `flush`. */
    method Leave()
      requires Valid() && flushing
      modifies this
      ensures Valid() && View() == Step(old(View()), Throw) && executed == old(executed)
    {
      StepKeepsInvariant(View(), Throw);
      if running != [] && running[0].fragment !in disposed && !destroyed {
        settled := settled + Tagged(running[0].fragment, Operations(running[0]));
      }
      running := [];
      flushing := false;
    }

    /** `queue.shift()` and the closure it returns. */
    method RunOne(reactions: seq<Reaction>)
      returns (left: seq<Reaction>, threw: bool, ghost trace: seq<Event>)
      requires Valid() && flushing && running == [] && queue != [] && CallBacks(reactions)
      modifies this
      ensures Valid() && flushing && (!threw ==> running == [])
      ensures Progress(old(View()), View(), reactions, left, threw, trace)
      ensures CallBacks(left) && (|left| < |reactions| || (left == reactions && queue == old(queue)[1..]))
      ensures |trace| >= 1 && trace[0] == RunHead
      ensures old(Paused(View(), queue[0].fragment)) ==> trace == [RunHead] && executed == old(executed)
    {
      ghost var before := View();
      left, threw, trace := reactions, false, [RunHead];
      var ran := RunFirst();
      ghost var turn: seq<Event>;
      if ran {
        left, threw, turn := React(reactions);
        ProgressReact(before, RunHead, View(), reactions, threw, turn);
        trace := [RunHead] + turn;
      } else {
        ProgressStep(before, RunHead, reactions);
        if running != [] {
          ghost var middle := View();
          left, threw, turn := RunBatch(reactions);
          ProgressThen(before, middle, View(), reactions, reactions, left, threw, trace, turn);
          trace := trace + turn;
        }
      }
    }

    /** The start of that closure: an item of a paused fragment is deferred, an operation runs, a batch is begun. */
    method RunFirst() returns (ran: bool)
      requires Valid() && flushing && running == [] && queue != []
      modifies this
      ensures Valid() && flushing && View() == Step(old(View()), RunHead)
      ensures |executed| == |old(executed)| + if ran then 1 else 0
      ensures old(Paused(View(), queue[0].fragment)) ==> !ran && running == []
      ensures running != [] ==> !ran
    {
      StepKeepsInvariant(View(), RunHead);
      var item := queue[0];
      queue := queue[1..];
      ran := false;
      if item.fragment in retention && retention[item.fragment].paused {
        retention := retention[item.fragment := Defer(retention[item.fragment], Operations(item))];
      } else if item.Single? {
        var f := item.fragment;
        if f !in disposed && !destroyed {
          settled := settled + [(f, item.operation)];
          executed := executed + [(f, item.operation)];
          ran := true;
        }
      } else {
        running := [item];
      }
    }

    /** The loop over a batch that a resume put back; an operation that throws leaves it with the rest undone. */
    method RunBatch(reactions: seq<Reaction>)
      returns (left: seq<Reaction>, threw: bool, ghost trace: seq<Event>)
      requires Valid() && flushing && CallBacks(reactions)
      modifies this
      ensures Valid() && flushing && (!threw ==> running == [])
      ensures Progress(old(View()), View(), reactions, left, threw, trace)
      ensures CallBacks(left) && (|left| < |reactions| || (left == reactions && queue == old(queue)))
    {
      ghost var before := View();
      trace, left, threw := [], reactions, false;
      ProgressNone(before, reactions);
      while running != [] && !threw
        invariant Valid() && flushing && CallBacks(left)
        invariant Progress(before, View(), reactions, left, threw, trace)
        invariant |left| < |reactions| || (left == reactions && queue == before.queue)
        decreases if running == [] then 0 else 1 + |Operations(running[0])|
      {
        ghost var now, unused := View(), left;
        ghost var turn: seq<Event>;
        left, threw, turn := RunTurn(left);
        ProgressThen(before, now, View(), reactions, unused, left, threw, trace, turn);
        trace := trace + turn;
      }
    }

    /** One round of that loop. */
    method RunTurn(reactions: seq<Reaction>)
      returns (left: seq<Reaction>, threw: bool, ghost trace: seq<Event>)
      requires Valid() && flushing && running != [] && CallBacks(reactions)
      modifies this
      ensures Valid() && flushing
      ensures running == [] || |Operations(running[0])| < old(|Operations(running[0])|)
      ensures Progress(old(View()), View(), reactions, left, threw, trace)
      ensures CallBacks(left) && (|left| < |reactions| || (left == reactions && queue == old(queue)))
    {
      ghost var before := View();
      left, threw, trace := reactions, false, [RunNext];
      var ran := RunNextOf();
      if ran {
        ghost var turn: seq<Event>;
        left, threw, turn := React(reactions);
        ProgressReact(before, RunNext, View(), reactions, threw, turn);
        trace := [RunNext] + turn;
      } else {
        ProgressStep(before, RunNext, reactions);
      }
    }

    /** Its operation, unless the fragment is gone. */
    method RunNextOf() returns (ran: bool)
      requires Valid() && flushing && running != []
      modifies this
      ensures Valid() && flushing && View() == Step(old(View()), RunNext)
      ensures |executed| == |old(executed)| + if ran then 1 else 0
      ensures running == [] || |Operations(running[0])| < old(|Operations(running[0])|)
      ensures queue == old(queue)
    {
      StepKeepsInvariant(View(), RunNext);
      var f, ops := running[0].fragment, Operations(running[0]);
      ran := |ops| > 0 && f !in disposed && !destroyed;
      running := if |ops| == 0 then [] else Remaining(f, ops);
      if ran {
        settled := settled + [(f, ops[0])];
        executed := executed + [(f, ops[0])];
      }
    }
  }
}
