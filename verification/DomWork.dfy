/**
 * Deferred DOM work of compiled fragments: the root's queue, the per-fragment pause state and the
 * steps that move operations between them (src/core/compile/incremental-fragment.ts).
 */
module DomWork {

  type Fragment = nat
  type Operation = nat

  /** A closure in the root queue: one operation, or a batch that a resume put back. */
  datatype Item =
    | Single(fragment: Fragment, operation: Operation)
    | Batch(fragment: Fragment, operations: seq<Operation>)

  /** `FragmentRetentionDomState` */
  datatype Retention = Retention(paused: bool, pending: seq<Operation>, deferred: nat)

  /**
   * `retention` has the undisposed fragments that watch for pauses; `running` is what is left of the
   * batch being executed. The logs record history for the statements below: `accepted` what was scheduled,
   * `executed` what was begun, and `settled` that together with what a throwing operation took down with it.
   */
  datatype State = State(
    queue: seq<Item>,
    running: seq<Item>,
    retention: map<Fragment, Retention>,
    disposed: set<Fragment>,
    destroyed: bool,
    flushing: bool,
    accepted: seq<(Fragment, Operation)>,
    settled: seq<(Fragment, Operation)>,
    executed: seq<(Fragment, Operation)>)

  datatype Event =
    | Schedule(fragment: Fragment, operation: Operation)
    | Pause(fragment: Fragment)
    | Resume(fragment: Fragment)
    | BeginFlush
    | RunHead
    | RunNext
    | Throw
    | EndFlush
    | Dispose(fragment: Fragment)
    | DestroyRoot

  predicate Paused(s: State, f: Fragment) { f in s.retention && s.retention[f].paused }

  /** `shouldRunCompiledFragmentCallback` */
  predicate Live(s: State, f: Fragment) { f !in s.disposed && !s.destroyed }

  /** `splice(deferred, 0, ...operations)`, moving the mark past what was inserted. */
  function Defer(r: Retention, operations: seq<Operation>): Retention {
    if r.deferred <= |r.pending| then
      Retention(r.paused, r.pending[..r.deferred] + operations + r.pending[r.deferred..], r.deferred + |operations|)
    else r.(pending := r.pending + operations)
  }

  function Execute(s: State, f: Fragment, op: Operation): State {
    if Live(s, f) then s.(settled := s.settled + [(f, op)], executed := s.executed + [(f, op)]) else s
  }

  function Tagged(f: Fragment, ops: seq<Operation>): seq<(Fragment, Operation)> {
    if |ops| == 0 then [] else Tagged(f, ops[..|ops| - 1]) + [(f, ops[|ops| - 1])]
  }

  /** An exception leaves the loop over a batch and the loop of the flush: the rest of the batch is gone. */
  function Abandon(s: State): State {
    if s.running == [] || !Live(s, s.running[0].fragment) then s
    else s.(settled := s.settled + Tagged(s.running[0].fragment, Operations(s.running[0])))
  }

  function Step(s: State, e: Event): State {
    match e
    case Schedule(f, op) =>
      if !Live(s, f) then s else
      var s1 := s.(accepted := s.accepted + [(f, op)]);
      if Paused(s, f) then
        s1.(retention := s.retention[f := s.retention[f].(pending := s.retention[f].pending + [op])])
      else s1.(queue := s.queue + [Single(f, op)])
    case Pause(f) =>
      if f !in s.retention then s
      else s.(retention := s.retention[f := s.retention[f].(paused := true, deferred := 0)])
    case Resume(f) =>
      if !Paused(s, f) then s else
      var pending := s.retention[f].pending;
      var s1 := s.(retention := s.retention[f := Retention(false, [], 0)]);
      if pending == [] || !Live(s, f) then s1 else s1.(queue := s.queue + [Batch(f, pending)])
    case BeginFlush => s.(flushing := true)
    case RunHead =>
      if s.queue == [] || s.running != [] then s else
      var item := s.queue[0];
      var s1 := s.(queue := s.queue[1..]);
      if Paused(s, item.fragment) then
        s1.(retention := s.retention[item.fragment := Defer(s.retention[item.fragment], Operations(item))])
      else if item.Single? then Execute(s1, item.fragment, item.operation)
      else s1.(running := [item])
    case RunNext =>
      if s.running == [] || |Operations(s.running[0])| == 0 then s.(running := []) else
      var f, ops := s.running[0].fragment, Operations(s.running[0]);
      Execute(s.(running := Remaining(f, ops)), f, ops[0])
    case Throw => Abandon(s).(running := [], flushing := false)
    case EndFlush => s.(flushing := false)
    case Dispose(f) => s.(disposed := s.disposed + {f}, retention := s.retention - {f})
    case DestroyRoot => s.(destroyed := true, queue := [])
  }

  function Remaining(f: Fragment, ops: seq<Operation>): seq<Item>
    requires |ops| > 0
  {
    if |ops| == 1 then [] else [Batch(f, ops[1..])]
  }

  function Operations(item: Item): seq<Operation> {
    match item
    case Single(_, op) => [op]
    case Batch(_, ops) => ops
  }

  /**
   * A flush drains the queue before it ends, unless one of its operations throws; operations may schedule, dispose,
   * pause and resume while it runs.
   */
  predicate Possible(s: State, e: Event) {
    match e
    case BeginFlush => !s.flushing
    case RunHead => s.flushing && s.running == []
    case RunNext => s.flushing && s.running != []
    case Throw => s.flushing
    case EndFlush => s.flushing && s.running == [] && s.queue == []
    case _ => true
  }

  /** Nothing was deferred so far, or nothing of the fragment is still queued. */
  predicate OrderSafe(s: State, f: Fragment) {
    f in s.retention ==> s.retention[f].deferred == 0 || Queued(s.queue, f) == []
  }

  /** A pause or a resume comes when it keeps the order; see `PauseKeepsOrderIff` and `ResumeKeepsOrderIff`. */
  predicate Orderly(s: State, e: Event) {
    e.Pause? || e.Resume? ==> OrderSafe(s, e.fragment)
  }

  function Run(s: State, events: seq<Event>): State
    decreases |events|
  {
    if |events| == 0 then s else Run(Step(s, events[0]), events[1..])
  }

  predicate PossibleRun(s: State, events: seq<Event>)
    decreases |events|
  {
    |events| == 0 || (Possible(s, events[0]) && PossibleRun(Step(s, events[0]), events[1..]))
  }

  predicate OrderlyRun(s: State, events: seq<Event>)
    decreases |events|
  {
    |events| == 0 || (Orderly(s, events[0]) && OrderlyRun(Step(s, events[0]), events[1..]))
  }

  predicate Initial(s: State) {
    s.queue == [] && s.running == [] && s.disposed == {} && !s.destroyed && !s.flushing
    && s.accepted == [] && s.settled == [] && s.executed == []
    && forall f | f in s.retention :: s.retention[f] == Retention(false, [], 0)
  }

  // ---- the outstanding operations of one fragment, in order

  function Queued(items: seq<Item>, f: Fragment): seq<Operation>
    decreases |items|
  {
    if |items| == 0 then []
    else (if items[0].fragment == f then Operations(items[0]) else []) + Queued(items[1..], f)
  }

  function Of(log: seq<(Fragment, Operation)>, f: Fragment): seq<Operation>
    decreases |log|
  {
    if |log| == 0 then []
    else Of(log[..|log| - 1], f) + (if log[|log| - 1].0 == f then [log[|log| - 1].1] else [])
  }

  function Before(s: State, f: Fragment): seq<Operation> {
    if f in s.retention && s.retention[f].deferred <= |s.retention[f].pending|
    then s.retention[f].pending[..s.retention[f].deferred] else []
  }

  function After(s: State, f: Fragment): seq<Operation> {
    if f !in s.retention then []
    else if s.retention[f].deferred <= |s.retention[f].pending| then s.retention[f].pending[s.retention[f].deferred..]
    else s.retention[f].pending
  }

  /** The rest of a running batch, the deferred prefix, the queue, then the rest of `pending`. */
  function Outstanding(s: State, f: Fragment): seq<Operation> {
    Queued(s.running, f) + Before(s, f) + Queued(s.queue, f) + After(s, f)
  }

  lemma {:induction false} QueuedAppend(a: seq<Item>, b: seq<Item>, f: Fragment)
    ensures Queued(a + b, f) == Queued(a, f) + Queued(b, f)
    decreases |a|
  {
    if |a| == 0 {
      assert a + b == b;
    } else {
      assert (a + b)[1..] == a[1..] + b;
      QueuedAppend(a[1..], b, f);
    }
  }

  lemma OfSnoc(log: seq<(Fragment, Operation)>, g: Fragment, op: Operation, f: Fragment)
    ensures Of(log + [(g, op)], f) == Of(log, f) + (if g == f then [op] else [])
  {
    assert (log + [(g, op)])[..|log|] == log;
  }

  lemma {:induction false} OfTagged(log: seq<(Fragment, Operation)>, g: Fragment, ops: seq<Operation>, f: Fragment)
    ensures Of(log + Tagged(g, ops), f) == Of(log, f) + (if g == f then ops else [])
    decreases |ops|
  {
    if |ops| == 0 {
      assert log + Tagged(g, ops) == log;
    } else {
      var n := |ops| - 1;
      OfTagged(log, g, ops[..n], f);
      OfSnoc(log + Tagged(g, ops[..n]), g, ops[n], f);
      assert log + Tagged(g, ops) == (log + Tagged(g, ops[..n])) + [(g, ops[n])];
      assert ops == ops[..n] + [ops[n]];
    }
  }

  // ---- subsequences

  /** `a` is what is left of `b` when some of its items are taken out. */
  predicate Subsequence<T(==)>(a: seq<T>, b: seq<T>)
    decreases |b|
  {
    if |b| == 0 then a == []
    else Subsequence(a, b[..|b| - 1])
         || (a != [] && a[|a| - 1] == b[|b| - 1] && Subsequence(a[..|a| - 1], b[..|b| - 1]))
  }

  lemma SubsequenceSnoc<T>(a: seq<T>, b: seq<T>, op: T)
    requires Subsequence(a, b)
    ensures Subsequence(a + [op], b + [op])
  {
    assert (b + [op])[..|b|] == b && (a + [op])[..|a|] == a;
  }

  lemma {:induction false} SubsequenceSkips<T>(a: seq<T>, b: seq<T>, c: seq<T>)
    requires Subsequence(a, b)
    ensures Subsequence(a, b + c)
    decreases |c|
  {
    if |c| == 0 {
      assert b + c == b;
    } else {
      SubsequenceSkips(a, b, c[..|c| - 1]);
      assert (b + c)[..|b + c| - 1] == b + c[..|c| - 1];
    }
  }

  lemma {:induction false} SubsequenceLength(a: seq<Operation>, b: seq<Operation>)
    requires Subsequence(a, b)
    ensures |a| <= |b| && (|a| == |b| ==> a == b)
    decreases |b|
  {
    if |b| > 0 {
      var b1 := b[..|b| - 1];
      if Subsequence(a, b1) {
        SubsequenceLength(a, b1);
      } else {
        SubsequenceLength(a[..|a| - 1], b1);
        assert a == a[..|a| - 1] + [a[|a| - 1]] && b == b1 + [b[|b| - 1]];
      }
    }
  }

  // ---- the invariant

  ghost predicate RetentionOk(s: State, f: Fragment) {
    f in s.retention ==>
      && s.retention[f].deferred <= |s.retention[f].pending|
      && (!s.retention[f].paused ==> s.retention[f].pending == [])
  }

  /** What became of the accepted operations so far, followed by those that are still to run. */
  function Total(s: State, f: Fragment): seq<Operation> { Of(s.settled, f) + Outstanding(s, f) }

  /** No accepted operation disappears and none is there twice. */
  ghost predicate Balanced(s: State, f: Fragment) {
    if Live(s, f) then multiset(Of(s.accepted, f)) == multiset(Total(s, f))
    else multiset(Of(s.settled, f)) <= multiset(Of(s.accepted, f))
  }

  /** And their order is the order of acceptance. */
  ghost predicate InOrder(s: State, f: Fragment) {
    if Live(s, f) then Of(s.accepted, f) == Total(s, f) else Of(s.settled, f) <= Of(s.accepted, f)
  }

  ghost predicate Ordered(s: State) { forall f: Fragment :: InOrder(s, f) }

  ghost predicate BatchOk(s: State) { |s.running| <= 1 && (s.running != [] ==> s.flushing && s.running[0].Batch?) }

  ghost predicate Shape(s: State) {
    BatchOk(s) && (forall f | f in s.retention :: f !in s.disposed) && (forall f: Fragment :: RetentionOk(s, f))
  }

  ghost predicate Invariant(s: State) {
    && Shape(s)
    && (forall f: Fragment :: Balanced(s, f))
    && (forall f: Fragment :: Subsequence(Of(s.executed, f), Of(s.settled, f)))
  }

  lemma InitialInvariant(s: State)
    requires Initial(s)
    ensures Invariant(s) && Ordered(s)
  {
    forall f: Fragment ensures RetentionOk(s, f) && Balanced(s, f) && InOrder(s, f) {
      assert Total(s, f) == [];
    }
  }

  lemma DeferParts(r: Retention, ops: seq<Operation>)
    requires r.deferred <= |r.pending|
    ensures Defer(r, ops).deferred <= |Defer(r, ops).pending| && Defer(r, ops).paused == r.paused
    ensures Defer(r, ops).pending[..Defer(r, ops).deferred] == r.pending[..r.deferred] + ops
    ensures Defer(r, ops).pending[Defer(r, ops).deferred..] == r.pending[r.deferred..]
  {
  }

  lemma ShapeKept(s: State, e: Event)
    requires Shape(s) && Possible(s, e)
    ensures Shape(Step(s, e))
  {
    var s' := Step(s, e);
    forall f: Fragment ensures RetentionOk(s', f) {
      assert RetentionOk(s, f);
      if e.RunHead? && s.queue != [] && Paused(s, s.queue[0].fragment) && f == s.queue[0].fragment {
        DeferParts(s.retention[f], Operations(s.queue[0]));
      }
    }
  }

  lemma OneItem(item: Item, f: Fragment)
    ensures Queued([item], f) == if item.fragment == f then Operations(item) else []
  {
    assert Queued([item][1..], f) == [];
  }

  // ---- what one event does to the total of one fragment

  /** What an event adds to the accepted operations of a fragment. */
  function New(s: State, e: Event, f: Fragment): seq<Operation> {
    if e.Schedule? && e.fragment == f && Live(s, f) then [e.operation] else []
  }

  lemma ScheduleWhilePaused(s: State, g: Fragment, op: Operation, f: Fragment)
    requires RetentionOk(s, f) && Live(s, g) && Paused(s, g)
    ensures Outstanding(Step(s, Schedule(g, op)), f) == Outstanding(s, f) + (if g == f then [op] else [])
  {
    var s' := Step(s, Schedule(g, op));
    assert s'.queue == s.queue && s'.running == s.running;
    if g == f {
      assert Before(s', f) == Before(s, f);
      assert After(s', f) == After(s, f) + [op];
    }
  }

  lemma ScheduleQueued(s: State, g: Fragment, op: Operation, f: Fragment)
    requires RetentionOk(s, f) && Live(s, g) && !Paused(s, g)
    ensures Outstanding(Step(s, Schedule(g, op)), f) == Outstanding(s, f) + (if g == f then [op] else [])
  {
    var s' := Step(s, Schedule(g, op));
    OneItem(Single(g, op), f);
    QueuedAppend(s.queue, [Single(g, op)], f);
    assert Before(s', f) == Before(s, f) && After(s', f) == After(s, f);
    if g == f { assert After(s, f) == []; }
  }

  lemma ScheduleOutstanding(s: State, g: Fragment, op: Operation, f: Fragment)
    requires RetentionOk(s, f)
    ensures Outstanding(Step(s, Schedule(g, op)), f) == Outstanding(s, f) + New(s, Schedule(g, op), f)
  {
    if Live(s, g) {
      if Paused(s, g) { ScheduleWhilePaused(s, g, op, f); } else { ScheduleQueued(s, g, op, f); }
    }
  }

  /** A resume puts everything pending behind what is still queued; a batch that is running goes on. */
  lemma ResumeRotates(s: State, f: Fragment)
    requires Paused(s, f) && Live(s, f) && RetentionOk(s, f)
    ensures Outstanding(s, f) == Queued(s.running, f) + Before(s, f) + Queued(s.queue, f) + After(s, f)
    ensures Outstanding(Step(s, Resume(f)), f)
            == Queued(s.running, f) + Queued(s.queue, f) + Before(s, f) + After(s, f)
  {
    var pending, s' := s.retention[f].pending, Step(s, Resume(f));
    assert pending == Before(s, f) + After(s, f);
    OneItem(Batch(f, pending), f);
    QueuedAppend(s.queue, [Batch(f, pending)], f);
    assert Queued(s'.queue, f) == Queued(s.queue, f) + pending;
    Behind(Queued(s.running, f), Queued(s.queue, f), Before(s, f), After(s, f));
  }

  lemma Behind(r: seq<Operation>, q: seq<Operation>, b: seq<Operation>, a: seq<Operation>)
    ensures r + [] + (q + (b + a)) + [] == r + q + b + a
  {
  }

  lemma ResumeOther(s: State, g: Fragment, f: Fragment)
    requires g != f || !Paused(s, f) || !Live(s, f)
    ensures Live(s, f) ==> Outstanding(Step(s, Resume(g)), f) == Outstanding(s, f)
  {
    if Paused(s, g) && Live(s, f) {
      var s' := Step(s, Resume(g));
      var batch := Batch(g, s.retention[g].pending);
      OneItem(batch, f);
      QueuedAppend(s.queue, [batch], f);
      assert Before(s', f) == Before(s, f) && After(s', f) == After(s, f);
      assert s'.running == s.running && Queued(s'.queue, f) == Queued(s.queue, f);
    }
  }

  /** A pause lets what was deferred count as later than what is queued. */
  lemma PauseRotates(s: State, f: Fragment)
    requires f in s.retention && RetentionOk(s, f)
    ensures Outstanding(Step(s, Pause(f)), f)
            == Queued(s.running, f) + Queued(s.queue, f) + Before(s, f) + After(s, f)
  {
    var pending, s' := s.retention[f].pending, Step(s, Pause(f));
    assert pending == Before(s, f) + After(s, f);
    assert Before(s', f) == [] && After(s', f) == pending;
    Regrouped(Queued(s.running, f), Queued(s.queue, f), Before(s, f), After(s, f));
  }

  lemma Regrouped(r: seq<Operation>, q: seq<Operation>, b: seq<Operation>, a: seq<Operation>)
    ensures r + [] + q + (b + a) == r + q + b + a
  {
  }

  lemma Rotated(r: seq<Operation>, b: seq<Operation>, q: seq<Operation>, a: seq<Operation>)
    ensures multiset(r + q + b + a) == multiset(r + b + q + a)
    ensures b == [] || q == [] ==> r + q + b + a == r + b + q + a
  {
    if b == [] { assert r + q + b == r + q && r + b + q == r + q; }
    if q == [] { assert r + q + b == r + b && r + b + q == r + b; }
  }

  /** Pauses and resumes move what is outstanding, and keep its order where nothing is overtaken. */
  lemma MovedOutstanding(s: State, e: Event, f: Fragment)
    requires (e.Pause? || e.Resume?) && RetentionOk(s, f) && Live(s, f)
    ensures multiset(Outstanding(Step(s, e), f)) == multiset(Outstanding(s, f))
    ensures Orderly(s, e) ==> Outstanding(Step(s, e), f) == Outstanding(s, f)
  {
    if e.Pause? { PauseMoves(s, e.fragment, f); } else { ResumeMoves(s, e.fragment, f); }
  }

  lemma PauseMoves(s: State, g: Fragment, f: Fragment)
    requires RetentionOk(s, f)
    ensures multiset(Outstanding(Step(s, Pause(g)), f)) == multiset(Outstanding(s, f))
    ensures OrderSafe(s, g) ==> Outstanding(Step(s, Pause(g)), f) == Outstanding(s, f)
  {
    if g == f && f in s.retention {
      PauseRotates(s, f);
      MarkOrQueue(s, f);
      Rotated(Queued(s.running, f), Before(s, f), Queued(s.queue, f), After(s, f));
    }
  }

  lemma ResumeMoves(s: State, g: Fragment, f: Fragment)
    requires RetentionOk(s, f) && Live(s, f)
    ensures multiset(Outstanding(Step(s, Resume(g)), f)) == multiset(Outstanding(s, f))
    ensures OrderSafe(s, g) ==> Outstanding(Step(s, Resume(g)), f) == Outstanding(s, f)
  {
    if g == f && Paused(s, f) {
      ResumeRotates(s, f);
      MarkOrQueue(s, f);
      Rotated(Queued(s.running, f), Before(s, f), Queued(s.queue, f), After(s, f));
    } else {
      ResumeOther(s, g, f);
    }
  }

  lemma MarkOrQueue(s: State, f: Fragment)
    requires f in s.retention && RetentionOk(s, f)
    ensures OrderSafe(s, f) ==> Before(s, f) == [] || Queued(s.queue, f) == []
  {
  }

  /** What the head of the queue adds to the logs. */
  function HeadRuns(s: State, f: Fragment): seq<Operation>
    requires s.queue != []
  {
    var item := s.queue[0];
    if item.fragment == f && item.Single? && Live(s, f) && !Paused(s, f) then [item.operation] else []
  }

  lemma RunHeadOther(s: State, f: Fragment)
    requires Possible(s, RunHead) && s.queue != [] && s.queue[0].fragment != f
    ensures Outstanding(s, f) == Outstanding(Step(s, RunHead), f)
  {
    var s' := Step(s, RunHead);
    OneItem(s.queue[0], f);
    assert Before(s', f) == Before(s, f) && After(s', f) == After(s, f);
    assert Queued(s'.queue, f) == Queued(s.queue, f) && Queued(s'.running, f) == [];
  }

  lemma RunHeadDefers(s: State, f: Fragment)
    requires RetentionOk(s, f) && Possible(s, RunHead) && s.queue != [] && s.queue[0].fragment == f && Paused(s, f)
    ensures Outstanding(s, f) == Outstanding(Step(s, RunHead), f)
  {
    var s', ops, q := Step(s, RunHead), Operations(s.queue[0]), Queued(s.queue[1..], f);
    DeferParts(s.retention[f], ops);
    assert Before(s', f) == Before(s, f) + ops && After(s', f) == After(s, f);
    assert s'.running == s.running == [] && s'.queue == s.queue[1..];
    assert Queued(s.queue, f) == ops + q;
    MarkMoves(Before(s, f), ops, q, After(s, f));
  }

  lemma MarkMoves(b: seq<Operation>, o: seq<Operation>, q: seq<Operation>, a: seq<Operation>)
    ensures [] + b + (o + q) + a == [] + (b + o) + q + a
  {
  }

  lemma RunHeadTakes(s: State, f: Fragment)
    requires RetentionOk(s, f) && Possible(s, RunHead) && s.queue != [] && s.queue[0].fragment == f
    requires Live(s, f) && !Paused(s, f)
    ensures Outstanding(s, f) == HeadRuns(s, f) + Outstanding(Step(s, RunHead), f)
  {
    var s', q := Step(s, RunHead), Queued(s.queue[1..], f);
    assert Before(s, f) == [] && After(s, f) == [] && Before(s', f) == [] && After(s', f) == [];
    assert Queued(s.queue, f) == Operations(s.queue[0]) + q && s'.queue == s.queue[1..];
    OneItem(s.queue[0], f);
  }

  lemma RunHeadOutstanding(s: State, f: Fragment)
    requires RetentionOk(s, f) && Possible(s, RunHead) && s.queue != [] && Live(s, f)
    ensures Outstanding(s, f) == HeadRuns(s, f) + Outstanding(Step(s, RunHead), f)
  {
    if s.queue[0].fragment != f {
      RunHeadOther(s, f);
    } else if Paused(s, f) {
      RunHeadDefers(s, f);
    } else {
      RunHeadTakes(s, f);
    }
  }

  function HeadLog(s: State): seq<(Fragment, Operation)>
    requires s.queue != []
  {
    var item := s.queue[0];
    if item.Single? && Live(s, item.fragment) && !Paused(s, item.fragment) then [(item.fragment, item.operation)]
        else []
  }

  lemma RunHeadAppends(s: State)
    requires Possible(s, RunHead) && s.queue != []
    ensures Step(s, RunHead).settled == s.settled + HeadLog(s)
    ensures Step(s, RunHead).executed == s.executed + HeadLog(s)
  {
  }

  lemma HeadLogOf(s: State, log: seq<(Fragment, Operation)>, f: Fragment)
    requires s.queue != []
    ensures Of(log + HeadLog(s), f) == Of(log, f) + HeadRuns(s, f)
  {
    if HeadLog(s) == [] {
      assert log + [] == log;
    } else {
      OfSnoc(log, s.queue[0].fragment, s.queue[0].operation, f);
    }
  }

  lemma RunHeadLogs(s: State, f: Fragment)
    requires Possible(s, RunHead) && s.queue != []
    ensures Of(Step(s, RunHead).settled, f) == Of(s.settled, f) + HeadRuns(s, f)
    ensures Of(Step(s, RunHead).executed, f) == Of(s.executed, f) + HeadRuns(s, f)
  {
    RunHeadAppends(s);
    HeadLogOf(s, s.settled, f);
    HeadLogOf(s, s.executed, f);
  }

  function NextRuns(s: State, f: Fragment): seq<Operation>
    requires s.running != []
  {
    var item := s.running[0];
    if item.fragment == f && |Operations(item)| > 0 && Live(s, f) then [Operations(item)[0]] else []
  }

  lemma RemainingQueued(g: Fragment, ops: seq<Operation>, f: Fragment)
    requires |ops| > 0
    ensures (if g == f then ops else []) == (if g == f then [ops[0]] else []) + Queued(Remaining(g, ops), f)
  {
    if |ops| == 1 {
      assert ops == [ops[0]];
    } else {
      OneItem(Batch(g, ops[1..]), f);
      assert ops == [ops[0]] + ops[1..];
    }
  }

  lemma RunningIs(s: State, f: Fragment)
    requires BatchOk(s) && s.running != []
    ensures Queued(s.running, f) == if s.running[0].fragment == f then Operations(s.running[0]) else []
  {
    assert s.running == [s.running[0]];
    OneItem(s.running[0], f);
  }

  lemma RunNextOutstanding(s: State, f: Fragment)
    requires BatchOk(s) && s.running != [] && Live(s, f)
    ensures Outstanding(s, f) == NextRuns(s, f) + Outstanding(Step(s, RunNext), f)
  {
    var item := s.running[0];
    var s' := Step(s, RunNext);
    assert Queued(s.running, f) == NextRuns(s, f) + Queued(s'.running, f) by {
      RunningIs(s, f);
      if |item.operations| > 0 { RemainingQueued(item.fragment, item.operations, f); }
    }
    assert Before(s', f) == Before(s, f) && After(s', f) == After(s, f) && s'.queue == s.queue;
    PullOut(NextRuns(s, f), Queued(s'.running, f), Before(s, f), Queued(s.queue, f), After(s, f));
  }

  lemma PullOut(n: seq<Operation>, r: seq<Operation>, b: seq<Operation>, q: seq<Operation>, a: seq<Operation>)
    ensures (n + r) + b + q + a == n + (r + b + q + a)
  {
  }

  lemma RunNextLogs(s: State, f: Fragment)
    requires BatchOk(s) && s.running != []
    ensures Of(Step(s, RunNext).settled, f) == Of(s.settled, f) + NextRuns(s, f)
    ensures Of(Step(s, RunNext).executed, f) == Of(s.executed, f) + NextRuns(s, f)
  {
    var item := s.running[0];
    if |item.operations| > 0 {
      OfSnoc(s.settled, item.fragment, item.operations[0], f);
      OfSnoc(s.executed, item.fragment, item.operations[0], f);
    }
  }

  /** What an operation that throws now takes down with it: the rest of its batch. */
  function Abandoned(s: State, f: Fragment): seq<Operation> {
    if Live(s, f) then Queued(s.running, f) else []
  }

  lemma ThrowSettles(s: State, f: Fragment)
    requires BatchOk(s)
    ensures Of(Step(s, Throw).settled, f) == Of(s.settled, f) + Abandoned(s, f)
    ensures Step(s, Throw).executed == s.executed
  {
    if s.running != [] {
      RunningIs(s, f);
      OfTagged(s.settled, s.running[0].fragment, Operations(s.running[0]), f);
    }
  }

  lemma ThrowOutstanding(s: State, f: Fragment)
    requires Live(s, f)
    ensures Outstanding(s, f) == Abandoned(s, f) + Outstanding(Step(s, Throw), f)
  {
    var s' := Step(s, Throw);
    assert Before(s', f) == Before(s, f) && After(s', f) == After(s, f) && s'.queue == s.queue && s'.running == [];
    PullOut(Queued(s.running, f), [], Before(s, f), Queued(s.queue, f), After(s, f));
    assert Queued(s.running, f) + [] == Queued(s.running, f);
  }

  /** What leaves the outstanding operations in front is appended to the settled ones. */
  lemma MovesOver(before: seq<Operation>, n: seq<Operation>, o: seq<Operation>, after: seq<Operation>,
      o': seq<Operation>)
    requires o == n + o' && after == before + n
    ensures after + o' == before + o
  {
  }

  lemma Reassociate(e: seq<Operation>, n: seq<Operation>, o: seq<Operation>)
    ensures e + (n + o) == (e + n) + o
  {
  }

  /** The steps of a flush leave the total as it is. */
  lemma FlushStepTotal(s: State, e: Event, f: Fragment)
    requires Shape(s) && Possible(s, e) && Live(s, f) && (e.RunHead? || e.RunNext? || e.Throw?)
    ensures Total(Step(s, e), f) == Total(s, f)
  {
    var s' := Step(s, e);
    assert RetentionOk(s, f);
    if e.Throw? {
      ThrowSettles(s, f);
      ThrowOutstanding(s, f);
      MovesOver(Of(s.settled, f), Abandoned(s, f), Outstanding(s, f), Of(s'.settled, f), Outstanding(s', f));
    } else if e.RunNext? {
      RunNextOutstanding(s, f);
      RunNextLogs(s, f);
      MovesOver(Of(s.settled, f), NextRuns(s, f), Outstanding(s, f), Of(s'.settled, f), Outstanding(s', f));
    } else if s.queue != [] {
      RunHeadOutstanding(s, f);
      RunHeadLogs(s, f);
      MovesOver(Of(s.settled, f), HeadRuns(s, f), Outstanding(s, f), Of(s'.settled, f), Outstanding(s', f));
    }
  }

  lemma ScheduleTotal(s: State, g: Fragment, op: Operation, f: Fragment)
    requires RetentionOk(s, f)
    ensures Total(Step(s, Schedule(g, op)), f) == Total(s, f) + New(s, Schedule(g, op), f)
  {
    ScheduleOutstanding(s, g, op, f);
    Reassociate(Of(s.settled, f), Outstanding(s, f), New(s, Schedule(g, op), f));
  }

  lemma MovedTotal(s: State, e: Event, f: Fragment)
    requires (e.Pause? || e.Resume?) && RetentionOk(s, f) && Live(s, f)
    ensures multiset(Total(Step(s, e), f)) == multiset(Total(s, f))
    ensures Orderly(s, e) ==> Total(Step(s, e), f) == Total(s, f)
  {
    MovedOutstanding(s, e, f);
    MovedKeepsLogs(s, e);
    SameItemsBehind(Of(s.settled, f), Outstanding(s, f), Outstanding(Step(s, e), f));
  }

  lemma MovedKeepsLogs(s: State, e: Event)
    requires e.Pause? || e.Resume?
    ensures Step(s, e).settled == s.settled
  {
  }

  lemma SameItemsBehind(d: seq<Operation>, o: seq<Operation>, o': seq<Operation>)
    requires multiset(o) == multiset(o')
    ensures multiset(d + o) == multiset(d + o')
  {
  }

  lemma StepTotal(s: State, e: Event, f: Fragment)
    requires Shape(s) && Possible(s, e) && Live(s, f) && Live(Step(s, e), f)
    ensures multiset(Total(Step(s, e), f)) == multiset(Total(s, f) + New(s, e, f))
    ensures Orderly(s, e) ==> Total(Step(s, e), f) == Total(s, f) + New(s, e, f)
  {
    assert RetentionOk(s, f);
    if e.Schedule? {
      ScheduleTotal(s, e.fragment, e.operation, f);
    } else {
      assert Total(s, f) + New(s, e, f) == Total(s, f);
      if e.Pause? || e.Resume? {
        MovedTotal(s, e, f);
      } else if e.RunHead? || e.RunNext? || e.Throw? {
        FlushStepTotal(s, e, f);
      } else if e.Dispose? {
        DisposeOther(s, e.fragment, f);
      }
    }
  }

  lemma DisposeOther(s: State, g: Fragment, f: Fragment)
    requires g != f
    ensures Total(Step(s, Dispose(g)), f) == Total(s, f)
  {
    var s' := Step(s, Dispose(g));
    assert Before(s', f) == Before(s, f) && After(s', f) == After(s, f);
  }

  lemma StepAccepted(s: State, e: Event, f: Fragment)
    ensures Of(Step(s, e).accepted, f) == Of(s.accepted, f) + New(s, e, f)
  {
    if e.Schedule? { OfSnoc(s.accepted, e.fragment, e.operation, f); }
  }

  lemma DeadStays(s: State, e: Event, f: Fragment)
    requires Shape(s) && Possible(s, e) && !Live(s, f)
    ensures !Live(Step(s, e), f)
    ensures Of(Step(s, e).settled, f) == Of(s.settled, f)
  {
    if e.RunHead? && s.queue != [] {
      RunHeadLogs(s, f);
    } else if e.RunNext? {
      RunNextLogs(s, f);
    } else if e.Throw? {
      ThrowSettles(s, f);
    }
  }

  lemma BalancedKept(s: State, e: Event, f: Fragment)
    requires Shape(s) && Balanced(s, f) && Possible(s, e)
    ensures Balanced(Step(s, e), f)
  {
    StepAccepted(s, e, f);
    if !Live(s, f) {
      DeadStays(s, e, f);
      MoreItems(Of(s.settled, f), Of(s.accepted, f), New(s, e, f));
    } else if Live(Step(s, e), f) {
      StepTotal(s, e, f);
      SameItemsBefore(Of(s.accepted, f), Total(s, f), New(s, e, f));
    } else {
      DyingKeepsLogs(s, e, f);
      FewerItems(Of(s.settled, f), Outstanding(s, f), Of(s.accepted, f));
    }
  }

  lemma DyingKeepsLogs(s: State, e: Event, f: Fragment)
    requires Live(s, f) && !Live(Step(s, e), f)
    ensures Step(s, e).settled == s.settled && Step(s, e).accepted == s.accepted
  {
  }

  lemma MoreItems(d: seq<Operation>, a: seq<Operation>, n: seq<Operation>)
    requires multiset(d) <= multiset(a)
    ensures multiset(d) <= multiset(a + n)
  {
  }

  lemma SameItemsBefore(a: seq<Operation>, t: seq<Operation>, n: seq<Operation>)
    requires multiset(a) == multiset(t)
    ensures multiset(a + n) == multiset(t + n)
  {
  }

  lemma FewerItems(d: seq<Operation>, o: seq<Operation>, a: seq<Operation>)
    requires multiset(a) == multiset(d + o)
    ensures multiset(d) <= multiset(a)
  {
  }

  lemma InOrderKept(s: State, e: Event, f: Fragment)
    requires Shape(s) && InOrder(s, f) && Possible(s, e) && Orderly(s, e)
    ensures InOrder(Step(s, e), f)
  {
    StepAccepted(s, e, f);
    if !Live(s, f) {
      DeadStays(s, e, f);
    } else if Live(Step(s, e), f) {
      StepTotal(s, e, f);
    } else {
      DyingKeepsLogs(s, e, f);
    }
  }

  lemma LogsKept(s: State, e: Event, f: Fragment)
    requires Shape(s) && Subsequence(Of(s.executed, f), Of(s.settled, f)) && Possible(s, e)
    ensures Subsequence(Of(Step(s, e).executed, f), Of(Step(s, e).settled, f))
  {
    if e.RunHead? && s.queue != [] {
      RunHeadLogs(s, f);
      LogsGrow(Of(s.executed, f), Of(s.settled, f), HeadRuns(s, f));
    } else if e.RunNext? {
      RunNextLogs(s, f);
      LogsGrow(Of(s.executed, f), Of(s.settled, f), NextRuns(s, f));
    } else if e.Throw? {
      ThrowSettles(s, f);
      SubsequenceSkips(Of(s.executed, f), Of(s.settled, f), Abandoned(s, f));
    }
  }

  lemma LogsGrow(a: seq<Operation>, b: seq<Operation>, n: seq<Operation>)
    requires Subsequence(a, b) && |n| <= 1
    ensures Subsequence(a + n, b + n)
  {
    if n == [] {
      assert a + n == a && b + n == b;
    } else {
      assert n == [n[0]];
      SubsequenceSnoc(a, b, n[0]);
    }
  }

  /**
   * Main result, one step: no operation gets lost in any step but the one that throws, none is there twice, and none
   * is overtaken unless a pause or a resume comes while it must not.
   */
  lemma StepKeepsInvariant(s: State, e: Event)
    requires Invariant(s) && Possible(s, e)
    ensures Invariant(Step(s, e))
    ensures Ordered(s) && Orderly(s, e) ==> Ordered(Step(s, e))
  {
    ShapeKept(s, e);
    forall f: Fragment
      ensures Balanced(Step(s, e), f) && Subsequence(Of(Step(s, e).executed, f), Of(Step(s, e).settled, f))
    {
      BalancedKept(s, e, f);
      LogsKept(s, e, f);
    }
    if Ordered(s) && Orderly(s, e) {
      forall f: Fragment ensures InOrder(Step(s, e), f) { InOrderKept(s, e, f); }
    }
  }

  lemma {:induction false} RunsKeepInvariant(s: State, events: seq<Event>)
    requires Invariant(s) && PossibleRun(s, events)
    ensures Invariant(Run(s, events))
    ensures Ordered(s) && OrderlyRun(s, events) ==> Ordered(Run(s, events))
    decreases |events|
  {
    if |events| > 0 {
      StepKeepsInvariant(s, events[0]);
      RunsKeepInvariant(Step(s, events[0]), events[1..]);
    }
  }

  // ---- what throwing operations lose

  /** How many operations of the fragment went down with one that threw. */
  function Losses(s: State, events: seq<Event>, f: Fragment): nat
    decreases |events|
  {
    if |events| == 0 then 0
    else (if events[0].Throw? then |Abandoned(s, f)| else 0) + Losses(Step(s, events[0]), events[1..], f)
  }

  /** Every accepted operation is executed or outstanding, once. */
  ghost predicate NothingMissing(s: State, f: Fragment) {
    multiset(Of(s.accepted, f)) == multiset(Of(s.executed, f)) + multiset(Outstanding(s, f))
  }

  function Gap(s: State, f: Fragment): int { |Of(s.settled, f)| - |Of(s.executed, f)| }

  lemma StepGap(s: State, e: Event, f: Fragment)
    requires Shape(s) && Possible(s, e)
    ensures Gap(Step(s, e), f) == Gap(s, f) + (if e.Throw? then |Abandoned(s, f)| else 0)
  {
    if e.RunHead? && s.queue != [] {
      RunHeadLogs(s, f);
    } else if e.RunNext? {
      RunNextLogs(s, f);
    } else if e.Throw? {
      ThrowSettles(s, f);
    }
  }

  lemma {:induction false} RunGap(s: State, events: seq<Event>, f: Fragment)
    requires Shape(s) && PossibleRun(s, events)
    ensures Gap(Run(s, events), f) == Gap(s, f) + Losses(s, events, f)
    decreases |events|
  {
    if |events| > 0 {
      StepGap(s, events[0], f);
      ShapeKept(s, events[0]);
      RunGap(Step(s, events[0]), events[1..], f);
    }
  }

  /**
   * Main result, every run whatsoever: what executes are accepted operations, none twice, and what a live fragment has
   * accepted is executed, outstanding or lost to an operation that threw.
   */
  lemma EveryRunLosesOnlyToThrows(s: State, events: seq<Event>, f: Fragment)
    requires Initial(s) && PossibleRun(s, events)
    ensures var t := Run(s, events);
            && multiset(Of(t.executed, f)) <= multiset(Of(t.accepted, f))
            && (Live(t, f) ==>
                |Of(t.accepted, f)| == |Of(t.executed, f)| + Losses(s, events, f) + |Outstanding(t, f)|)
            && (Live(t, f) ==> (NothingMissing(t, f) <==> Losses(s, events, f) == 0))
  {
    InitialInvariant(s);
    RunsKeepInvariant(s, events);
    RunGap(s, events, f);
    Accounted(Run(s, events), f);
  }

  lemma Accounted(t: State, f: Fragment)
    requires Invariant(t)
    ensures multiset(Of(t.executed, f)) <= multiset(Of(t.accepted, f)) && Gap(t, f) >= 0
    ensures Live(t, f) ==> |Of(t.accepted, f)| == |Of(t.executed, f)| + Gap(t, f) + |Outstanding(t, f)|
    ensures Live(t, f) ==> (NothingMissing(t, f) <==> Gap(t, f) == 0)
  {
    var a, x, d, o := Of(t.accepted, f), Of(t.executed, f), Of(t.settled, f), Outstanding(t, f);
    assert Balanced(t, f) && Subsequence(x, d);
    SubsequenceLength(x, d);
    SubsequenceItems(x, d);
    if Live(t, f) {
      assert multiset(d + o) == multiset(d) + multiset(o);
      assert |a| == |multiset(a)| && |d + o| == |multiset(d + o)| && |x| == |multiset(x)| && |o| == |multiset(o)|;
    }
  }

  lemma {:induction false} SubsequenceItems(a: seq<Operation>, b: seq<Operation>)
    requires Subsequence(a, b)
    ensures multiset(a) <= multiset(b)
    decreases |b|
  {
    if |b| > 0 {
      var b1 := b[..|b| - 1];
      assert b == b1 + [b[|b| - 1]];
      if Subsequence(a, b1) {
        SubsequenceItems(a, b1);
      } else {
        SubsequenceItems(a[..|a| - 1], b1);
        assert a == a[..|a| - 1] + [a[|a| - 1]];
      }
    }
  }

  lemma {:induction false} SubsequenceOfPrefix(a: seq<Operation>, b: seq<Operation>, c: seq<Operation>)
    requires Subsequence(a, b) && b <= c
    ensures Subsequence(a, c)
  {
    SubsequenceSkips(a, b, c[|b|..]);
    assert b + c[|b|..] == c;
  }

  /**
   * Main result, every run whose pauses and resumes come when they may: each fragment's operations execute in the
   * order they were accepted, none twice; and a live fragment has executed or still holds all of them, in that order,
   * iff no operation threw while others of its batch were left.
   */
  lemma EveryRunKeepsOrder(s: State, events: seq<Event>, f: Fragment)
    requires Initial(s) && PossibleRun(s, events) && OrderlyRun(s, events)
    ensures var t := Run(s, events);
            && Subsequence(Of(t.executed, f), Of(t.accepted, f))
            && (Live(t, f) ==>
                (Of(t.accepted, f) == Of(t.executed, f) + Outstanding(t, f) <==> Losses(s, events, f) == 0))
            && (Losses(s, events, f) == 0 ==> Of(t.executed, f) <= Of(t.accepted, f))
  {
    InitialInvariant(s);
    RunsKeepInvariant(s, events);
    RunGap(s, events, f);
    var t := Run(s, events);
    assert InOrder(t, f) && Subsequence(Of(t.executed, f), Of(t.settled, f));
    SubsequenceLength(Of(t.executed, f), Of(t.settled, f));
    SubsequenceOfPrefix(Of(t.executed, f), Of(t.settled, f), Of(t.accepted, f));
  }

  /** Main result: an operation executes only for a live fragment, in turn, and while paused only in a begun batch. */
  lemma OnlyLiveUnpausedExecute(s: State, e: Event)
    requires Invariant(s) && Possible(s, e)
    ensures var s' := Step(s, e);
            || s'.executed == s.executed
            || exists f, op :: s'.executed == s.executed + [(f, op)] && Live(s, f)
                               && (Paused(s, f) ==> e.RunNext? && Queued(s.running, f) != [])
                               && Outstanding(s, f) == [op] + Outstanding(s', f)
  {
    var s' := Step(s, e);
    if e.RunHead? && s'.executed != s.executed {
      var item := s.queue[0];
      assert RetentionOk(s, item.fragment);
      RunHeadOutstanding(s, item.fragment);
      assert s'.executed == s.executed + [(item.fragment, item.operation)];
    } else if e.RunNext? && s'.executed != s.executed {
      var item := s.running[0];
      RunningIs(s, item.fragment);
      RunNextOutstanding(s, item.fragment);
      assert s'.executed == s.executed + [(item.fragment, item.operations[0])];
    }
  }

  /** No batch of a paused fragment is under way. */
  ghost predicate NoneWhilePaused(s: State) { forall f: Fragment | Paused(s, f) :: Queued(s.running, f) == [] }

  /** A batch goes on for a paused fragment only after a pause that came while it was under way. */
  lemma PausedBatchIff(s: State, e: Event)
    requires Shape(s) && Possible(s, e) && NoneWhilePaused(s)
    ensures NoneWhilePaused(Step(s, e))
            <==> !(e.Pause? && e.fragment in s.retention && Queued(s.running, e.fragment) != [])
  {
    var s' := Step(s, e);
    if e.Pause? && e.fragment in s.retention {
      assert Paused(s', e.fragment) && s'.running == s.running;
      forall f: Fragment | Paused(s', f) && f != e.fragment ensures Queued(s'.running, f) == [] { assert Paused(s, f); }
    } else {
      forall f: Fragment | Paused(s', f) ensures Queued(s'.running, f) == [] {
        assert Paused(s, f);
        if e.RunNext? {
          RunningIs(s, f);
          RunNextLeft(s, f);
        } else if e.RunHead? && s.queue != [] {
          OneItem(s.queue[0], f);
        }
      }
    }
  }

  lemma RunNextLeft(s: State, f: Fragment)
    requires BatchOk(s) && s.running != [] && Queued(s.running, f) == []
    ensures Queued(Step(s, RunNext).running, f) == []
  {
    var item := s.running[0];
    RunningIs(s, f);
    if |item.operations| > 0 { RemainingQueued(item.fragment, item.operations, f); }
  }

  /** When a flush has ended by itself, nothing of an unpaused live fragment is left to run. */
  lemma FlushedMeansExecuted(s: State, f: Fragment)
    requires Invariant(s) && Possible(s, EndFlush) && Live(s, f) && !Paused(s, f)
    ensures Outstanding(s, f) == [] && multiset(Of(s.settled, f)) == multiset(Of(s.accepted, f))
    ensures multiset(Of(s.executed, f)) == multiset(Of(s.accepted, f)) <==> Gap(s, f) == 0
    ensures InOrder(s, f) ==> (Of(s.executed, f) == Of(s.accepted, f) <==> Gap(s, f) == 0)
  {
    assert RetentionOk(s, f) && Balanced(s, f) && Subsequence(Of(s.executed, f), Of(s.settled, f));
    assert Outstanding(s, f) == [];
    assert Total(s, f) == Of(s.settled, f);
    Accounted(s, f);
    SubsequenceLength(Of(s.executed, f), Of(s.settled, f));
  }

  // ---- runs in which pauses and resumes come between flushes and nothing throws

  predicate Calm(s: State, e: Event) { !e.Throw? && (e.Pause? || e.Resume? ==> !s.flushing) }

  predicate CalmRun(s: State, events: seq<Event>)
    decreases |events|
  {
    |events| == 0 || (Calm(s, events[0]) && CalmRun(Step(s, events[0]), events[1..]))
  }

  /** Between flushes what was deferred has nothing before it in the queue. */
  ghost predicate Rested(s: State) {
    !s.flushing ==> forall f: Fragment | f in s.retention && s.retention[f].deferred > 0 :: Queued(s.queue, f) == []
  }

  lemma CalmKeepsRested(s: State, e: Event)
    requires Shape(s) && Rested(s) && Possible(s, e) && Calm(s, e)
    ensures Rested(Step(s, e)) && Orderly(s, e)
  {
    var s' := Step(s, e);
    if !s'.flushing {
      forall f: Fragment | f in s'.retention && s'.retention[f].deferred > 0 ensures Queued(s'.queue, f) == [] {
        assert RetentionOk(s, f);
        if e.Schedule? {
          QueuedAppend(s.queue, [Single(e.fragment, e.operation)], f);
          OneItem(Single(e.fragment, e.operation), f);
        } else if e.Resume? && Paused(s, e.fragment) {
          ResumeQueue(s, e.fragment, f);
        }
      }
    }
  }

  lemma ResumeQueue(s: State, g: Fragment, f: Fragment)
    requires Paused(s, g) && f != g
    ensures !s.destroyed ==> Queued(Step(s, Resume(g)).queue, f) == Queued(s.queue, f)
    ensures s.destroyed ==> Step(s, Resume(g)).queue == s.queue
  {
    QueuedAppend(s.queue, [Batch(g, s.retention[g].pending)], f);
    OneItem(Batch(g, s.retention[g].pending), f);
  }

  lemma {:induction false} CalmRunsStay(s: State, events: seq<Event>, f: Fragment)
    requires Shape(s) && Rested(s) && NoneWhilePaused(s) && PossibleRun(s, events) && CalmRun(s, events)
    ensures OrderlyRun(s, events) && Losses(s, events, f) == 0
    ensures NoneWhilePaused(Run(s, events))
    decreases |events|
  {
    if |events| > 0 {
      CalmKeepsRested(s, events[0]);
      ShapeKept(s, events[0]);
      PausedBatchIff(s, events[0]);
      CalmRunsStay(Step(s, events[0]), events[1..], f);
    }
  }

  /**
   * If pauses and resumes come between flushes and no operation throws, the order is kept, nothing is lost, and no
   * operation of a paused fragment executes.
   */
  lemma CalmRunsKeepOrder(s: State, events: seq<Event>, f: Fragment)
    requires Initial(s) && PossibleRun(s, events) && CalmRun(s, events)
    ensures var t := Run(s, events);
            && Of(t.executed, f) <= Of(t.accepted, f)
            && (Live(t, f) ==> Of(t.accepted, f) == Of(t.executed, f) + Outstanding(t, f))
            && (Paused(t, f) ==> Queued(t.running, f) == [])
  {
    InitialInvariant(s);
    CalmRunsStay(s, events, f);
    EveryRunKeepsOrder(s, events, f);
  }

  // ---- when a pause or a resume keeps the order

  ghost predicate Distinct(ops: seq<Operation>) {
    forall i, j | 0 <= i < j < |ops| :: ops[i] != ops[j]
  }

  /** At any moment, also while a batch is running: the mark must be zero or nothing of the fragment still queued. */
  lemma ResumeKeepsOrderIff(s: State, f: Fragment)
    requires Paused(s, f) && Live(s, f)
    requires s.retention[f].deferred <= |s.retention[f].pending| && Distinct(Outstanding(s, f))
    ensures Outstanding(Step(s, Resume(f)), f) == Outstanding(s, f)
            <==> s.retention[f].deferred == 0 || Queued(s.queue, f) == []
  {
    ResumeRotates(s, f);
    RotationDiffers(Queued(s.running, f), Before(s, f), Queued(s.queue, f), After(s, f));
  }

  /** A repeated pause forgets the mark, so that what was deferred counts as later than what is queued. */
  lemma PauseKeepsOrderIff(s: State, f: Fragment)
    requires Paused(s, f)
    requires s.retention[f].deferred <= |s.retention[f].pending| && Distinct(Outstanding(s, f))
    ensures Outstanding(Step(s, Pause(f)), f) == Outstanding(s, f)
            <==> s.retention[f].deferred == 0 || Queued(s.queue, f) == []
  {
    PauseRotates(s, f);
    RotationDiffers(Queued(s.running, f), Before(s, f), Queued(s.queue, f), After(s, f));
  }

  lemma RotationDiffers(r: seq<Operation>, a: seq<Operation>, b: seq<Operation>, c: seq<Operation>)
    requires Distinct(r + a + b + c)
    ensures r + b + a + c == r + a + b + c <==> a == [] || b == []
  {
    if a == [] { assert r + b + a == r + b && r + a + b == r + b; }
    if b == [] { assert r + b + a == r + a && r + a + b == r + a; }
    if a != [] && b != [] {
      var k := |r|;
      assert (r + a + b + c)[k] == a[0] && (r + a + b + c)[k + |a|] == b[0] && (r + b + a + c)[k] == b[0];
    }
  }

  // ---- an operation that throws

  /** An exception loses nothing of a fragment iff no others of the fragment's batch are left. */
  lemma ThrowLosesIff(s: State, f: Fragment)
    requires BatchOk(s) && Live(s, f) && NothingMissing(s, f)
    ensures NothingMissing(Step(s, Throw), f) <==> Queued(s.running, f) == []
  {
    var t := Step(s, Throw);
    ThrowKeepsHistory(s);
    ThrowOutstanding(s, f);
    ItemsLost(Of(s.accepted, f), Of(s.executed, f), Queued(s.running, f), Outstanding(t, f), Outstanding(s, f));
  }

  lemma ThrowKeepsHistory(s: State)
    ensures Step(s, Throw).accepted == s.accepted && Step(s, Throw).executed == s.executed
  {
  }

  lemma ItemsLost(a: seq<Operation>, x: seq<Operation>, n: seq<Operation>, o: seq<Operation>, before: seq<Operation>)
    requires before == n + o && multiset(a) == multiset(x) + multiset(before)
    ensures multiset(a) == multiset(x) + multiset(o) <==> n == []
  {
    assert multiset(n + o) == multiset(n) + multiset(o);
    if n == [] {
      assert n + o == o;
    } else {
      assert multiset(n)[n[0]] > 0;
      assert multiset(a)[n[0]] > (multiset(x) + multiset(o))[n[0]];
    }
  }

  function Fresh(watching: set<Fragment>): State {
    State([], [], map f | f in watching :: Retention(false, [], 0), {}, false, false, [], [], [])
  }

  /**
   * Two operations scheduled while paused and resumed as one batch; the first one throws, and the second is nowhere.
   */
  lemma ThrowLosesTheBatch(f: Fragment)
    ensures var s := Fresh({f});
            var events := [Pause(f), Schedule(f, 1), Schedule(f, 2), Resume(f), BeginFlush, RunHead, RunNext, Throw];
            var t := Run(s, events);
            && Initial(s) && PossibleRun(s, events) && OrderlyRun(s, events)
            && Live(t, f) && !Paused(t, f) && !t.flushing && t.queue == []
            && Of(t.accepted, f) == [1, 2] && Of(t.executed, f) == [1] && Outstanding(t, f) == []
  {
    var first, second := [Pause(f), Schedule(f, 1), Schedule(f, 2), Resume(f)], [BeginFlush, RunHead, RunNext, Throw];
    BatchIsQueued(f);
    FirstOfBatchThrows(f);
    RunAppend(Fresh({f}), first, second);
    assert first + second == [Pause(f), Schedule(f, 1), Schedule(f, 2), Resume(f), BeginFlush, RunHead, RunNext, Throw];
    OfSnoc([], f, 1, f);
    OfSnoc([(f, 1)], f, 2, f);
    assert [(f, 1)] + [(f, 2)] == [(f, 1), (f, 2)] && [] + [(f, 1)] == [(f, 1)];
  }

  function WithBatch(f: Fragment): State {
    State([Batch(f, [1, 2])], [], map[f := Retention(false, [], 0)], {}, false, false, [(f, 1), (f, 2)], [], [])
  }

  lemma BatchIsQueued(f: Fragment)
    ensures var events := [Pause(f), Schedule(f, 1), Schedule(f, 2), Resume(f)];
            && PossibleRun(Fresh({f}), events) && OrderlyRun(Fresh({f}), events)
            && Run(Fresh({f}), events) == WithBatch(f)
  {
    var s0 := Fresh({f});
    var s1 := Step(s0, Pause(f));
    assert s1 == State([], [], map[f := Retention(true, [], 0)], {}, false, false, [], [], []);
    var s2 := Step(s1, Schedule(f, 1));
    assert s2.retention[f].pending == [1];
    assert s2 == State([], [], map[f := Retention(true, [1], 0)], {}, false, false, [(f, 1)], [], []);
    var s3 := Step(s2, Schedule(f, 2));
    assert s3.retention[f].pending == [1, 2] && s3.accepted == [(f, 1), (f, 2)];
    assert s3 == State([], [], map[f := Retention(true, [1, 2], 0)], {}, false, false, [(f, 1), (f, 2)], [], []);
    FourSteps(s0, Pause(f), Schedule(f, 1), Schedule(f, 2), Resume(f));
  }

  lemma FirstOfBatchThrows(f: Fragment)
    ensures var t := Run(WithBatch(f), [BeginFlush, RunHead, RunNext, Throw]);
            && PossibleRun(WithBatch(f), [BeginFlush, RunHead, RunNext, Throw])
            && OrderlyRun(WithBatch(f), [BeginFlush, RunHead, RunNext, Throw])
            && t.queue == [] && t.running == [] && t.retention == map[f := Retention(false, [], 0)]
            && t.disposed == {} && !t.destroyed && !t.flushing
            && t.accepted == [(f, 1), (f, 2)] && t.executed == [(f, 1)]
  {
    var s0 := WithBatch(f);
    var s1 := Step(s0, BeginFlush);
    var s2 := Step(s1, RunHead);
    assert s2.running == [Batch(f, [1, 2])] && s2.queue == [];
    var s3 := Step(s2, RunNext);
    FourSteps(s0, BeginFlush, RunHead, RunNext, Throw);
  }

  lemma {:induction false} RunAppend(s: State, a: seq<Event>, b: seq<Event>)
    ensures Run(s, a + b) == Run(Run(s, a), b)
    ensures PossibleRun(s, a + b) <==> PossibleRun(s, a) && PossibleRun(Run(s, a), b)
    ensures OrderlyRun(s, a + b) <==> OrderlyRun(s, a) && OrderlyRun(Run(s, a), b)
    decreases |a|
  {
    if |a| == 0 {
      assert a + b == b;
    } else {
      assert (a + b)[1..] == a[1..] + b;
      RunAppend(Step(s, a[0]), a[1..], b);
    }
  }

  lemma FourSteps(s: State, a: Event, b: Event, c: Event, d: Event)
    ensures var s1 := Step(s, a); var s2 := Step(s1, b); var s3 := Step(s2, c);
            && Run(s, [a, b, c, d]) == Step(s3, d)
            && (PossibleRun(s, [a, b, c, d]) <==>
                Possible(s, a) && Possible(s1, b) && Possible(s2, c) && Possible(s3, d))
            && (OrderlyRun(s, [a, b, c, d]) <==> Orderly(s, a) && Orderly(s1, b) && Orderly(s2, c) && Orderly(s3, d))
  {
    TwoSteps(s, a, b);
    TwoSteps(Step(Step(s, a), b), c, d);
    RunAppend(s, [a, b], [c, d]);
    assert [a, b] + [c, d] == [a, b, c, d];
  }

  lemma TwoSteps(s: State, a: Event, b: Event)
    ensures Run(s, [a, b]) == Step(Step(s, a), b)
    ensures PossibleRun(s, [a, b]) <==> Possible(s, a) && Possible(Step(s, a), b)
    ensures OrderlyRun(s, [a, b]) <==> Orderly(s, a) && Orderly(Step(s, a), b)
  {
    var s1 := Step(s, a);
    assert [a, b][1..] == [b] && [b][1..] == [];
    assert Run(s1, [b]) == Step(s1, b) && Run(s, [a, b]) == Run(s1, [b]);
    assert PossibleRun(s1, [b]) <==> Possible(s1, b);
    assert OrderlyRun(s1, [b]) <==> Orderly(s1, b);
  }

  /**
   * A flush that ends by an exception leaves deferred and queued operations side by side, and then a resume between
   * two flushes no longer keeps the order: 2, which was scheduled last, is now first.
   */
  lemma ThrowLetsResumeReorder(f: Fragment, g: Fragment)
    requires f != g
    ensures var s := Fresh({f});
            var events := [Schedule(f, 1), Schedule(g, 9), Schedule(f, 2), Pause(f), BeginFlush, RunHead, RunHead,
                Throw];
            var t := Run(s, events);
            && Initial(s) && PossibleRun(s, events) && OrderlyRun(s, events) && !t.flushing && Paused(t, f)
            && Outstanding(t, f) == [1, 2] && Outstanding(Step(t, Resume(f)), f) == [2, 1]
  {
    var first, second := [Schedule(f, 1), Schedule(g, 9), Schedule(f, 2), Pause(f)],
        [BeginFlush, RunHead, RunHead, Throw];
    ThreeAreQueued(f, g);
    SecondThrows(f, g);
    RunAppend(Fresh({f}), first, second);
    assert first + second
        == [Schedule(f, 1), Schedule(g, 9), Schedule(f, 2), Pause(f), BeginFlush, RunHead, RunHead, Throw];
    SecondIsOvertaken(Run(WithThree(f, g), second), f);
  }

  lemma SecondIsOvertaken(t: State, f: Fragment)
    requires t.queue == [Single(f, 2)] && t.running == [] && Live(t, f)
    requires f in t.retention && t.retention[f] == Retention(true, [1], 1)
    ensures Outstanding(t, f) == [1, 2] && Outstanding(Step(t, Resume(f)), f) == [2, 1]
  {
    OneItem(Single(f, 2), f);
    assert Queued(t.running, f) == [] && Before(t, f) == [1] && Queued(t.queue, f) == [2] && After(t, f) == [];
    ResumeRotates(t, f);
  }

  function WithThree(f: Fragment, g: Fragment): State {
    State([Single(f, 1), Single(g, 9), Single(f, 2)], [], map[f := Retention(true, [], 0)], {}, false, false,
      [(f, 1), (g, 9), (f, 2)], [], [])
  }

  lemma ThreeAreQueued(f: Fragment, g: Fragment)
    requires f != g
    ensures var events := [Schedule(f, 1), Schedule(g, 9), Schedule(f, 2), Pause(f)];
            && PossibleRun(Fresh({f}), events) && OrderlyRun(Fresh({f}), events)
            && Run(Fresh({f}), events) == WithThree(f, g)
  {
    var s0 := Fresh({f});
    var s1 := Step(s0, Schedule(f, 1));
    assert s1 == State([Single(f, 1)], [], s0.retention, {}, false, false, [(f, 1)], [], []);
    var s2 := Step(s1, Schedule(g, 9));
    assert s2 == State([Single(f, 1), Single(g, 9)], [], s0.retention, {}, false, false, [(f, 1), (g, 9)], [], []);
    var s3 := Step(s2, Schedule(f, 2));
    assert s3.queue == WithThree(f, g).queue && s3.accepted == WithThree(f, g).accepted;
    FourSteps(s0, Schedule(f, 1), Schedule(g, 9), Schedule(f, 2), Pause(f));
  }

  lemma SecondThrows(f: Fragment, g: Fragment)
    requires f != g
    ensures var events := [BeginFlush, RunHead, RunHead, Throw];
            var t := Run(WithThree(f, g), events);
            && PossibleRun(WithThree(f, g), events) && OrderlyRun(WithThree(f, g), events)
            && t.queue == [Single(f, 2)] && t.running == [] && t.retention == map[f := Retention(true, [1], 1)]
            && t.disposed == {} && !t.destroyed && !t.flushing
  {
    var s0 := WithThree(f, g);
    var s1 := Step(s0, BeginFlush);
    var s2 := Step(s1, RunHead);
    assert Defer(Retention(true, [], 0), [1]) == Retention(true, [1], 1);
    assert s2.queue == [Single(g, 9), Single(f, 2)] && s2.retention == map[f := Retention(true, [1], 1)];
    var s3 := Step(s2, RunHead);
    FourSteps(s0, BeginFlush, RunHead, RunHead, Throw);
  }
}
