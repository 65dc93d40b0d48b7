/**
 * Model synchronisation (src/core/app-context/app-context.ts): changes of a model are coalesced into one
 * batch per flush and written to every sync target but the one they came from. Between two writes of a
 * flush anything may happen, so a flush is several steps: Begin takes the batch, Deliver writes one target.
 */
module ModelSync {
  import opened Basics

  type Key = string

  /** The contents of a slot: a primitive, or an object, of which a restore and a write always hold another copy. */
  datatype Value = Atom(content: int) | Composite(content: int)

  /** `===` on what a slot holds and what is put there. An object assigned is another one than the one held. */
  predicate Identical(held: Value, put: Value) { held.Atom? && held == put }

  type Model = map<Key, Value>

  /** Each registration makes its own origin; callers of restore may name any other. */
  datatype Origin = Sync(number: nat) | Label(text: string)

  datatype Mode = Replace | Merge

  datatype Failure = Report | Throw | Ignore

  datatype Change = Change(origin: Option<Origin>, keys: set<Key>, snapshotVersion: nat)

  /** A registration, with what its target holds and whether the two have ever exchanged a state. */
  datatype Record = Record(hasWrite: bool, failure: Failure, disposed: bool, held: Model, exchanged: bool)

  /** A flush under way: who is still to be looked at. */
  datatype Delivery = Delivery(change: Change, snapshot: Model, rest: seq<nat>)

  /** How a batch left: sent to the targets, or dropped as there were none. */
  datatype Departure = Sent(change: Change) | Dropped(keys: set<Key>)

  datatype Write = Write(target: nat, change: Change, snapshot: Model)

  /** records[n] is registration n; `recorded`, `departed` and `writes` are history. */
  datatype State = State(
    model: Model, pending: set<Key>, pendingOrigin: Option<Origin>, scheduled: bool, queued: nat, version: nat,
    records: seq<Record>, delivering: Option<Delivery>,
    recorded: multiset<Key>, departed: seq<Departure>, writes: seq<Write>)

  datatype Event =
    | Set(key: Key, value: Value)
    | Delete(key: Key)
    | Restore(incoming: Model, mode: Mode, origin: Option<Origin>)
    | Receive(from: nat, incoming: Model, mode: Mode, origin: Option<Origin>)
    | Attach(hasWrite: bool, failure: Failure)
    | Dispose(target: nat)
    | Begin
    | Deliver(succeeds: bool, rethrows: bool)

  // ---- the steps

  function After(m: Model, incoming: Model, mode: Mode): Model {
    if mode == Replace then incoming else m + incoming
  }

  /**
   * The keys whose slots a restore deletes or assigns something not identical; objects count even with equal
   * contents.
   */
  function Changed(m: Model, incoming: Model, mode: Mode): set<Key> {
    (if mode == Replace then m.Keys - incoming.Keys else {})
    + (set k | k in incoming.Keys && !(k in m.Keys && Identical(m[k], incoming[k])))
  }

  /** What the tracker does for some keys: coalesce them, keep the first origin, queue one flush. */
  function Recorded(s: State, keys: set<Key>, origin: Option<Origin>): State {
    if keys == {} then s
    else s.(pending := s.pending + keys,
            recorded := s.recorded + multiset(keys - s.pending),
            pendingOrigin := FirstOrigin(s, origin),
            scheduled := true,
            queued := if s.scheduled then s.queued else s.queued + 1)
  }

  function FirstOrigin(s: State, origin: Option<Origin>): Option<Origin> {
    if s.pendingOrigin.Some? then s.pendingOrigin else origin
  }

  function Applied(s: State, incoming: Model, mode: Mode, origin: Option<Origin>): State {
    Recorded(s.(model := After(s.model, incoming, mode)), Changed(s.model, incoming, mode), origin)
  }

  function Took(s: State, from: nat, incoming: Model, mode: Mode): State
    requires from < |s.records|
  {
    s.(records := s.records[from := s.records[from].(held := After(s.records[from].held, incoming, mode),
        exchanged := true)])
  }

  function Sender(from: nat, origin: Option<Origin>): Option<Origin> {
    if origin.Some? then origin else Some(Sync(from))
  }

  function Step(s: State, e: Event): State {
    match e
    case Set(key, value) => Applied(s, map[key := value], Merge, None)
    case Delete(key) =>
      if key in s.model.Keys then Recorded(s.(model := s.model - {key}), {key}, None) else s
    case Restore(incoming, mode, origin) => Applied(s, incoming, mode, origin)
    case Receive(from, incoming, mode, origin) =>
      if from >= |s.records| || s.records[from].disposed then s
      else Applied(Took(s, from, incoming, mode), incoming, mode, Sender(from, origin))
    case Attach(hasWrite, failure) => s.(records := s.records + [Record(hasWrite, failure, false, map[], false)])
    case Dispose(target) =>
      if target >= |s.records| then s
      else s.(records := s.records[target := s.records[target].(disposed := true)])
    case Begin => if s.queued == 0 || s.delivering.Some? then s else Begun(s)
    case Deliver(succeeds, rethrows) =>
      if s.delivering.None? then s else Delivered(s, s.delivering.value, succeeds, rethrows)
  }

  /** The registrations that are not disposed, oldest first. */
  function Registered(records: seq<Record>): seq<nat>
    decreases |records|
  {
    if |records| == 0 then []
    else Registered(records[..|records| - 1]) + (if records[|records| - 1].disposed then [] else [|records| - 1])
  }

  /** The head of `flushChanges`: the batch leaves, and a snapshot of the model with it. */
  function Begun(s: State): State
    requires s.queued > 0
  {
    var out := s.(scheduled := false, queued := s.queued - 1, pending := {}, pendingOrigin := None);
    if s.pending == {} || Registered(s.records) == [] then
      out.(departed := s.departed + [Dropped(s.pending)])
    else
      var change := Change(s.pendingOrigin, s.pending, s.version + 1);
      out.(version := s.version + 1, departed := s.departed + [Sent(change)],
           delivering := Some(Delivery(change, s.model, Registered(s.records))))
  }

  /** A failed write ends the flush if its mode is to throw, or to report to an exception handler that rethrows. */
  predicate Aborts(failure: Failure, rethrows: bool) { failure.Throw? || (failure.Report? && rethrows) }

  /** One turn of its loop. */
  function Delivered(s: State, d: Delivery, succeeds: bool, rethrows: bool): State {
    if d.rest == [] then s.(delivering := None)
    else
      var next := s.(delivering := Some(d.(rest := d.rest[1..])));
      if !Takes(s, d, d.rest[0]) then next
      else if succeeds then Written(next, d, d.rest[0])
      else if Aborts(s.records[d.rest[0]].failure, rethrows) then s.(delivering := None)
      else next
  }

  /** The guard of the loop: an undisposed target with a write, and not the one the change came from. */
  predicate Takes(s: State, d: Delivery, t: nat) {
    Live(s, t) && d.change.origin != Some(Sync(t))
  }

  predicate Live(s: State, t: nat) {
    t < |s.records| && !s.records[t].disposed && s.records[t].hasWrite
  }

  function Written(s: State, d: Delivery, t: nat): State
    requires t < |s.records|
  {
    s.(records := s.records[t := s.records[t].(held := d.snapshot, exchanged := true)],
       writes := s.writes + [Write(t, d.change, d.snapshot)])
  }

  function Run(s: State, es: seq<Event>): State
    decreases |es|
  {
    if |es| == 0 then s else Run(Step(s, es[0]), es[1..])
  }

  // ---- what every step keeps

  function KeysOf(d: Departure): set<Key> {
    match d case Sent(change) => change.keys case Dropped(keys) => keys
  }

  /** How often each key has left. */
  function Gone(ds: seq<Departure>): multiset<Key>
    decreases |ds|
  {
    if |ds| == 0 then multiset{} else Gone(ds[..|ds| - 1]) + multiset(KeysOf(ds[|ds| - 1]))
  }

  /** The versions of the batches sent. */
  function Versions(ds: seq<Departure>): seq<nat>
    decreases |ds|
  {
    if |ds| == 0 then []
    else Versions(ds[..|ds| - 1]) + (if ds[|ds| - 1].Sent? then [ds[|ds| - 1].change.snapshotVersion] else [])
  }

  /** Something pending means exactly one flush is queued, and nothing pending means none is. */
  predicate FlushQueued(s: State) {
    && (s.scheduled <==> s.pending != {})
    && s.queued == (if s.scheduled then 1 else 0)
    && (s.pending == {} ==> s.pendingOrigin == None)
  }

  /** Every time a key was recorded it has left in one batch, or is still pending. */
  predicate EachLeavesOnce(s: State) {
    s.recorded == Gone(s.departed) + multiset(s.pending)
  }

  /** The batches sent are numbered 1, 2, 3, … */
  ghost predicate VersionsByOne(s: State) {
    && |Versions(s.departed)| == s.version
    && forall i | 0 <= i < s.version :: Versions(s.departed)[i] == i + 1
  }

  /** No target was ever written a change of its own, nor the same batch twice, nor an older one later. */
  ghost predicate WritesOk(s: State) {
    && (forall i | 0 <= i < |s.writes| ::
          s.writes[i].change.origin != Some(Sync(s.writes[i].target))
              && s.writes[i].change.snapshotVersion <= s.version)
    && (forall i, j | 0 <= i < j < |s.writes| && s.writes[i].target == s.writes[j].target ::
          s.writes[i].change.snapshotVersion < s.writes[j].change.snapshotVersion)
  }

  predicate Ascending(ns: seq<nat>) {
    forall i, j | 0 <= i < j < |ns| :: ns[i] < ns[j]
  }

  /** The flush under way carries the newest version, which those still to be looked at have not had. */
  ghost predicate DeliveryOk(s: State) {
    s.delivering.Some? ==>
      var d := s.delivering.value;
      && Ascending(d.rest) && (forall t | t in d.rest :: t < |s.records|)
      && d.change.snapshotVersion == s.version
      && (forall i | 0 <= i < |s.writes| && s.writes[i].target in d.rest ::
          s.writes[i].change.snapshotVersion < s.version)
      && (s.model == d.snapshot || s.pending != {})
  }

  ghost predicate Invariant(s: State) {
    FlushQueued(s) && EachLeavesOnce(s) && VersionsByOne(s) && WritesOk(s) && DeliveryOk(s)
  }

  lemma GoneSnoc(ds: seq<Departure>, d: Departure)
    ensures Gone(ds + [d]) == Gone(ds) + multiset(KeysOf(d))
    ensures Versions(ds + [d]) == Versions(ds) + (if d.Sent? then [d.change.snapshotVersion] else [])
  {
    assert (ds + [d])[..|ds|] == ds;
  }

  lemma {:induction false} RegisteredAre(records: seq<Record>)
    ensures forall n: nat :: n in Registered(records) <==> n < |records| && !records[n].disposed
    decreases |records|
  {
    if |records| > 0 {
      var init := records[..|records| - 1];
      RegisteredAre(init);
      assert forall n: nat | n < |init| :: init[n] == records[n];
    }
  }

  lemma {:induction false} RegisteredAscends(records: seq<Record>)
    ensures Ascending(Registered(records))
    decreases |records|
  {
    if |records| > 0 {
      var init := records[..|records| - 1];
      RegisteredAre(init);
      RegisteredAscends(init);
      var early := Registered(init);
      assert forall i | 0 <= i < |early| :: early[i] in early;
    }
  }

  lemma CoalescedMultiset(pending: set<Key>, keys: set<Key>)
    ensures multiset(pending + keys) == multiset(pending) + multiset(keys - pending)
  {
    forall k: Key ensures multiset(pending + keys)[k] == (multiset(pending) + multiset(keys - pending))[k] {
    }
  }

  lemma RecordedKeeps(s: State, keys: set<Key>, origin: Option<Origin>)
    requires FlushQueued(s) && EachLeavesOnce(s)
    ensures FlushQueued(Recorded(s, keys, origin)) && EachLeavesOnce(Recorded(s, keys, origin))
  {
    CoalescedMultiset(s.pending, keys);
  }

  /** What is not recorded does not change the model. */
  lemma UnchangedIsSame(m: Model, incoming: Model, mode: Mode)
    requires Changed(m, incoming, mode) == {}
    ensures After(m, incoming, mode) == m
  {
    var c, m' := Changed(m, incoming, mode), After(m, incoming, mode);
    assert mode == Replace ==> m.Keys - incoming.Keys <= c;
    assert mode == Replace ==> forall k | k in m.Keys :: k in m.Keys - incoming.Keys || k in incoming.Keys;
    forall k | k in incoming.Keys ensures k in m.Keys && m[k] == incoming[k] {
      assert k !in c;
    }
    assert m'.Keys == m.Keys;
  }

  lemma AppliedKeeps(s: State, incoming: Model, mode: Mode, origin: Option<Origin>)
    requires Invariant(s)
    ensures Invariant(Applied(s, incoming, mode, origin))
  {
    var t := s.(model := After(s.model, incoming, mode));
    RecordedKeeps(t, Changed(s.model, incoming, mode), origin);
    AppliedDelivers(s, incoming, mode, origin);
  }

  lemma AppliedDelivers(s: State, incoming: Model, mode: Mode, origin: Option<Origin>)
    requires DeliveryOk(s)
    ensures DeliveryOk(Applied(s, incoming, mode, origin))
  {
    if Changed(s.model, incoming, mode) == {} { UnchangedIsSame(s.model, incoming, mode); }
  }

  lemma DeleteKeeps(s: State, key: Key)
    requires Invariant(s)
    ensures Invariant(Recorded(s.(model := s.model - {key}), {key}, None))
  {
    RecordedKeeps(s.(model := s.model - {key}), {key}, None);
  }

  lemma ReceiveKeeps(s: State, from: nat, incoming: Model, mode: Mode, origin: Option<Origin>)
    requires Invariant(s) && from < |s.records|
    ensures Invariant(Applied(Took(s, from, incoming, mode), incoming, mode, origin))
  {
    AppliedKeeps(Took(s, from, incoming, mode), incoming, mode, origin);
  }

  lemma BegunKeeps(s: State)
    requires Invariant(s) && s.queued > 0 && s.delivering.None?
    ensures Invariant(Begun(s))
  {
    RegisteredAre(s.records);
    RegisteredAscends(s.records);
    var d := Begun(s).departed[|s.departed|];
    GoneSnoc(s.departed, d);
    assert Begun(s).departed == s.departed + [d];
  }

  /** One target less in line. */
  lemma NextInLine(s: State, d: Delivery, next: State)
    requires Invariant(s) && s.delivering == Some(d) && d.rest != []
    requires next == s.(delivering := Some(d.(rest := d.rest[1..])))
    ensures Invariant(next)
  {
    assert forall t | t in d.rest[1..] :: t in d.rest;
  }

  /** The next in line has not been written this batch; the others in line are different targets. */
  lemma WrittenKeeps(s: State, d: Delivery, next: State)
    requires Invariant(s) && s.delivering == Some(d) && d.rest != [] && Takes(s, d, d.rest[0])
    requires next == s.(delivering := Some(d.(rest := d.rest[1..])))
    ensures WritesOk(Written(next, d, d.rest[0])) && DeliveryOk(Written(next, d, d.rest[0]))
  {
    assert forall t | t in d.rest[1..] :: t in d.rest && t != d.rest[0];
    var w := Written(next, d, d.rest[0]);
    assert w.writes == s.writes + [Write(d.rest[0], d.change, d.snapshot)];
  }

  lemma DeliveredKeeps(s: State, succeeds: bool, rethrows: bool)
    requires Invariant(s) && s.delivering.Some?
    ensures Invariant(Delivered(s, s.delivering.value, succeeds, rethrows))
  {
    var d := s.delivering.value;
    if d.rest != [] {
      var next := s.(delivering := Some(d.(rest := d.rest[1..])));
      NextInLine(s, d, next);
      if Takes(s, d, d.rest[0]) && succeeds { WrittenKeeps(s, d, next); }
    }
  }

  /** Main result: whatever happens in whatever order, also while a flush is writing, the invariant stays. */
  lemma StepKeepsInvariant(s: State, e: Event)
    requires Invariant(s)
    ensures Invariant(Step(s, e))
  {
    match e
    case Set(key, value) => AppliedKeeps(s, map[key := value], Merge, None);
    case Delete(key) => DeleteKeeps(s, key);
    case Restore(incoming, mode, origin) => AppliedKeeps(s, incoming, mode, origin);
    case Receive(from, incoming, mode, origin) =>
      if from < |s.records| { ReceiveKeeps(s, from, incoming, mode, Sender(from, origin)); }
    case Begin => if s.queued > 0 && s.delivering.None? { BegunKeeps(s); }
    case Deliver(succeeds, rethrows) => if s.delivering.Some? { DeliveredKeeps(s, succeeds, rethrows); }
    case _ =>
  }

  function Initial(model: Model): State {
    State(model, {}, None, false, 0, 0, [], None, multiset{}, [], [])
  }

  lemma {:induction false} RunKeepsInvariant(s: State, es: seq<Event>)
    requires Invariant(s)
    ensures Invariant(Run(s, es))
    decreases |es|
  {
    if |es| > 0 {
      StepKeepsInvariant(s, es[0]);
      RunKeepsInvariant(Step(s, es[0]), es[1..]);
    }
  }

  /** Every run from the start. */
  lemma EveryRun(model: Model, es: seq<Event>)
    ensures Invariant(Run(Initial(model), es))
  {
    RunKeepsInvariant(Initial(model), es);
  }

  function WritesTo(ws: seq<Write>, t: nat): seq<Write>
    decreases |ws|
  {
    if |ws| == 0 then []
    else WritesTo(ws[..|ws| - 1], t) + (if ws[|ws| - 1].target == t then [ws[|ws| - 1]] else [])
  }

  predicate Disposed(s: State, t: nat) { t < |s.records| && s.records[t].disposed }

  lemma DisposedDelivered(s: State, d: Delivery, succeeds: bool, rethrows: bool, t: nat)
    requires Disposed(s, t)
    ensures Disposed(Delivered(s, d, succeeds, rethrows), t)
    ensures WritesTo(Delivered(s, d, succeeds, rethrows).writes, t) == WritesTo(s.writes, t)
  {
    if d.rest != [] && Takes(s, d, d.rest[0]) && succeeds {
      var w := Write(d.rest[0], d.change, d.snapshot);
      assert (s.writes + [w])[..|s.writes|] == s.writes;
    }
  }

  /** A disposed target stays disposed, is never written again, and can no longer change the model. */
  lemma DisposedStep(s: State, e: Event, t: nat)
    requires Disposed(s, t)
    ensures Disposed(Step(s, e), t) && WritesTo(Step(s, e).writes, t) == WritesTo(s.writes, t)
    ensures e.Receive? && e.from == t ==> Step(s, e) == s
  {
    if e.Deliver? && s.delivering.Some? { DisposedDelivered(s, s.delivering.value, e.succeeds, e.rethrows, t); }
  }

  /** Main result: after its disposal no run writes a target. */
  lemma {:induction false} DisposedNeverWritten(s: State, es: seq<Event>, t: nat)
    requires Disposed(s, t)
    ensures WritesTo(Run(s, es).writes, t) == WritesTo(s.writes, t)
    decreases |es|
  {
    if |es| > 0 {
      DisposedStep(s, es[0], t);
      DisposedNeverWritten(Step(s, es[0]), es[1..], t);
    }
  }

  // ---- agreement

  /** The flush under way will still write this target. */
  predicate Awaiting(s: State, t: nat) {
    s.delivering.Some? && t in s.delivering.value.rest && Takes(s, s.delivering.value, t)
  }

  /** What a target holds once the flush under way is over. */
  function Ready(s: State, t: nat): Model
    requires t < |s.records|
  {
    if Awaiting(s, t) then s.delivering.value.snapshot else s.records[t].held
  }

  /** The pending batch will reach this target. */
  predicate NextReaches(s: State, t: nat) {
    s.pending != {} && s.pendingOrigin != Some(Sync(t))
  }

  /** A live target that has exchanged a state, or is about to. */
  predicate Concerned(s: State, t: nat) {
    Live(s, t) && (s.records[t].exchanged || Awaiting(s, t))
  }

  /** What a target holds once everything queued has been flushed. */
  function Ending(s: State, t: nat): Model
    requires t < |s.records|
  {
    if NextReaches(s, t) then s.model else Ready(s, t)
  }

  /** The target will hold the model. */
  predicate Due(s: State, t: nat)
    requires t < |s.records|
  {
    Ending(s, t) == s.model
  }

  predicate Quiet(s: State) { s.queued == 0 && s.delivering.None? }

  /** Let the flushes finish, with writes that succeed and nothing else happening. */
  function Drain(s: State): (s': State)
    ensures Quiet(s') && s'.model == s.model
    decreases s.queued, if s.delivering.Some? then |s.delivering.value.rest| + 1 else 0
  {
    if s.delivering.Some? then Drain(Step(s, Deliver(true, false)))
    else if s.queued > 0 then Drain(Step(s, Begin))
    else s
  }

  lemma NextDue(s: State, d: Delivery, next: State, t: nat)
    requires Invariant(s) && s.delivering == Some(d) && d.rest != [] && Live(s, t)
    requires next == s.(delivering := Some(d.(rest := d.rest[1..])))
    ensures Live(next, t)
    ensures t != d.rest[0] ==> (Awaiting(next, t) <==> Awaiting(s, t))
    ensures t == d.rest[0] ==> !Awaiting(next, t) && (Awaiting(s, t) <==> Takes(s, d, t))
  {
    assert d.rest == [d.rest[0]] + d.rest[1..];
    assert d.rest[0] !in d.rest[1..];
  }

  lemma DeliverDue(s: State, t: nat)
    requires Invariant(s) && s.delivering.Some? && Live(s, t)
    ensures Live(Step(s, Deliver(true, false)), t)
    ensures Ending(Step(s, Deliver(true, false)), t) == Ending(s, t)
    ensures Concerned(Step(s, Deliver(true, false)), t) <==> Concerned(s, t)
  {
    var d := s.delivering.value;
    if d.rest != [] { NextDue(s, d, s.(delivering := Some(d.(rest := d.rest[1..]))), t); }
  }

  lemma BeginDue(s: State, t: nat)
    requires Invariant(s) && s.delivering.None? && s.queued > 0 && Live(s, t)
    ensures Live(Step(s, Begin), t)
    ensures Ending(Step(s, Begin), t) == Ending(s, t)
  {
    RegisteredAre(s.records);
    assert t in Registered(s.records);
  }

  /** Main result: exactly what every live target holds once everything queued has been flushed. */
  lemma {:induction false} DrainExact(s: State, t: nat)
    requires Invariant(s) && Live(s, t)
    ensures Live(Drain(s), t)
    ensures Drain(s).records[t].held == Ending(s, t)
    decreases s.queued, if s.delivering.Some? then |s.delivering.value.rest| + 1 else 0
  {
    if s.delivering.Some? {
      StepKeepsInvariant(s, Deliver(true, false));
      DeliverDue(s, t);
      DrainExact(Step(s, Deliver(true, false)), t);
    } else if s.queued > 0 {
      StepKeepsInvariant(s, Begin);
      BeginDue(s, t);
      DrainExact(Step(s, Begin), t);
    }
  }

  ghost predicate AllDue(s: State) {
    forall t: nat | Concerned(s, t) :: Due(s, t)
  }

  /**
   * Whether a change that makes the model `to` may join the pending batch: a target whose origin the batch bears is
   * not told, so it must have the new state without it.
   */
  ghost predicate Joins(s: State, origin: Option<Origin>, to: Model) {
    forall t: nat | Concerned(s, t) && FirstOrigin(s, origin) == Some(Sync(t)) :: Ready(s, t) == to
  }

  /** The events after which everyone still agrees in the end. */
  ghost predicate Benign(s: State, e: Event) {
    match e
    case Set(key, value) => Fits(s, map[key := value], Merge, None)
    case Delete(key) => key in s.model.Keys ==> Joins(s, None, s.model - {key})
    case Restore(incoming, mode, origin) => Fits(s, incoming, mode, origin)
    case Receive(from, incoming, mode, origin) =>
      from < |s.records| && !s.records[from].disposed ==> FitsFrom(s, from, incoming, mode, origin)
    case Deliver(succeeds, _) => succeeds
    case _ => true
  }

  ghost predicate Fits(s: State, incoming: Model, mode: Mode, origin: Option<Origin>) {
    Changed(s.model, incoming, mode) != {} ==> Joins(s, origin, After(s.model, incoming, mode))
  }

  /** For a state a target sends; if it changes nothing, the sender alone may have to catch up. */
  ghost predicate FitsFrom(s: State, from: nat, incoming: Model, mode: Mode, origin: Option<Origin>)
    requires from < |s.records|
  {
    var s1 := Took(s, from, incoming, mode);
    if Changed(s.model, incoming, mode) != {} then Joins(s1, Sender(from, origin), After(s.model, incoming, mode))
    else Live(s, from) ==> NextReaches(s, from) || Ready(s1, from) == s.model
  }

  /** A recorded change: nobody's own state moves, and the batch reaches all but the target it is from. */
  lemma RecordedDue(s: State, to: Model, keys: set<Key>, origin: Option<Origin>, t: nat)
    requires Live(s, t) && keys != {}
    ensures var s' := Recorded(s.(model := to), keys, origin);
            && Live(s', t) && Ready(s', t) == Ready(s, t) && (Concerned(s', t) <==> Concerned(s, t)) && s'.model == to
            && (NextReaches(s', t) <==> FirstOrigin(s, origin) != Some(Sync(t)))
  {
  }

  lemma RecordedLive(s: State, to: Model, keys: set<Key>, origin: Option<Origin>, t: nat)
    ensures Live(Recorded(s.(model := to), keys, origin), t) <==> Live(s, t)
  {
  }

  /** After a recorded change everyone is due exactly if it was fit to join. */
  lemma RecordedAllDueIff(s: State, to: Model, keys: set<Key>, origin: Option<Origin>)
    requires keys != {}
    ensures AllDue(Recorded(s.(model := to), keys, origin)) <==> Joins(s, origin, to)
  {
    var s' := Recorded(s.(model := to), keys, origin);
    if Joins(s, origin, to) {
      forall t: nat | Concerned(s', t) ensures Due(s', t) {
        RecordedLive(s, to, keys, origin, t);
        RecordedDue(s, to, keys, origin, t);
      }
    }
    if AllDue(s') {
      forall t: nat | Concerned(s, t) && FirstOrigin(s, origin) == Some(Sync(t)) ensures Ready(s, t) == to {
        RecordedDue(s, to, keys, origin, t);
        assert Due(s', t);
      }
    }
  }

  lemma AppliedAllDueIff(s: State, incoming: Model, mode: Mode, origin: Option<Origin>)
    requires Changed(s.model, incoming, mode) != {}
    ensures AllDue(Applied(s, incoming, mode, origin)) <==> Joins(s, origin, After(s.model, incoming, mode))
  {
    RecordedAllDueIff(s, After(s.model, incoming, mode), Changed(s.model, incoming, mode), origin);
  }

  /** Main result, exact: a change that comes from no target keeps everyone due iff it may join the pending batch. */
  lemma AppliedKeepsDueIff(s: State, incoming: Model, mode: Mode, origin: Option<Origin>)
    requires AllDue(s)
    ensures AllDue(Applied(s, incoming, mode, origin)) <==> Fits(s, incoming, mode, origin)
  {
    if Changed(s.model, incoming, mode) != {} {
      AppliedAllDueIff(s, incoming, mode, origin);
    } else {
      UnchangedIsSame(s.model, incoming, mode);
      assert Applied(s, incoming, mode, origin) == s;
    }
  }

  lemma TookOthers(s: State, from: nat, incoming: Model, mode: Mode, t: nat)
    requires from < |s.records| && t != from && Live(s, t)
    ensures var s1 := Took(s, from, incoming, mode);
            && Live(s1, t) && Ready(s1, t) == Ready(s, t) && (Concerned(s1, t) <==> Concerned(s, t))
            && (Due(s1, t) <==> Due(s, t))
  {
  }

  lemma TookSender(s: State, from: nat, incoming: Model, mode: Mode)
    requires Live(s, from)
    ensures var s1 := Took(s, from, incoming, mode);
            && Live(s1, from) && Concerned(s1, from) && (NextReaches(s1, from) <==> NextReaches(s, from))
            && Ready(s1, from) == (if Awaiting(s, from) then s.delivering.value.snapshot
                                   else After(s.records[from].held, incoming, mode))
  {
  }

  lemma TookLive(s: State, from: nat, incoming: Model, mode: Mode, t: nat)
    requires from < |s.records|
    ensures Live(Took(s, from, incoming, mode), t) <==> Live(s, t)
  {
  }

  /** A sent state that changes nothing: only the sender's own case is new. */
  lemma TookAllDueIff(s: State, from: nat, incoming: Model, mode: Mode)
    requires AllDue(s) && from < |s.records|
    ensures AllDue(Took(s, from, incoming, mode)) <==>
            (Live(s, from) ==> NextReaches(s, from) || Ready(Took(s, from, incoming, mode), from) == s.model)
  {
    var s1 := Took(s, from, incoming, mode);
    if Live(s, from) {
      TookSender(s, from, incoming, mode);
      assert Due(s1, from) <==> NextReaches(s, from) || Ready(s1, from) == s.model;
    }
    forall t: nat | t != from ensures Concerned(s1, t) ==> Due(s1, t) {
      TookLive(s, from, incoming, mode, t);
      if Live(s, t) {
        TookOthers(s, from, incoming, mode, t);
        if Concerned(s, t) { assert Due(s, t); }
      }
    }
    TookLive(s, from, incoming, mode, from);
  }

  /** Main result, exact: the same for a state a target sends, in either mode and under any origin. */
  lemma ReceivedKeepsDueIff(s: State, from: nat, incoming: Model, mode: Mode, origin: Option<Origin>)
    requires AllDue(s) && from < |s.records| && !s.records[from].disposed
    ensures AllDue(Step(s, Receive(from, incoming, mode, origin))) <==> FitsFrom(s, from, incoming, mode, origin)
  {
    var s1 := Took(s, from, incoming, mode);
    assert Step(s, Receive(from, incoming, mode, origin)) == Applied(s1, incoming, mode, Sender(from, origin));
    if Changed(s.model, incoming, mode) != {} {
      AppliedAllDueIff(s1, incoming, mode, Sender(from, origin));
    } else {
      UnchangedIsSame(s.model, incoming, mode);
      assert Applied(s1, incoming, mode, Sender(from, origin)) == s1;
      TookAllDueIff(s, from, incoming, mode);
    }
  }

  // ---- the condition in terms of origins

  /** A change by the application joins iff the pending batch is no concerned target's own. */
  lemma OwnChangeJoinsIff(s: State, to: Model)
    requires Invariant(s) && AllDue(s) && to != s.model
    ensures Joins(s, None, to) <==> forall t: nat | Concerned(s, t) :: s.pendingOrigin != Some(Sync(t))
  {
    forall t: nat | Concerned(s, t) && s.pendingOrigin == Some(Sync(t)) ensures Ready(s, t) != to {
      assert Due(s, t) && !NextReaches(s, t);
    }
  }

  /**
   * A whole new state from a target joins iff the pending batch is no other concerned target's, and the sender, if it
   * gets the batch's origin, has no other state coming from the flush under way.
   */
  lemma SentStateJoinsIff(s: State, from: nat, incoming: Model)
    requires Invariant(s) && AllDue(s) && from < |s.records| && incoming != s.model
    ensures Joins(Took(s, from, incoming, Replace), Some(Sync(from)), incoming) <==>
            && (forall t: nat | Concerned(s, t) && t != from :: s.pendingOrigin != Some(Sync(t)))
            && (Live(s, from) && FirstOrigin(s, Some(Sync(from))) == Some(Sync(from)) && Awaiting(s, from) ==>
                  s.delivering.value.snapshot == incoming)
  {
    var s1, o := Took(s, from, incoming, Replace), Some(Sync(from));
    forall t: nat | t != from && Live(s, t)
      ensures (Concerned(s1, t) && FirstOrigin(s1, o) == Some(Sync(t)) ==> Ready(s1, t) == incoming)
              <==> !(Concerned(s, t) && s.pendingOrigin == Some(Sync(t)))
    {
      TookOthers(s, from, incoming, Replace, t);
      if Concerned(s, t) && s.pendingOrigin == Some(Sync(t)) { assert Due(s, t) && !NextReaches(s, t); }
    }
    forall t: nat ensures Live(s1, t) <==> Live(s, t) { TookLive(s, from, incoming, Replace, t); }
    if Live(s, from) { TookSender(s, from, incoming, Replace); }
  }

  lemma BeginKeepsDue(s: State)
    requires Invariant(s) && AllDue(s)
    ensures AllDue(Step(s, Begin))
  {
    if s.queued > 0 && s.delivering.None? {
      forall t: nat | Concerned(Step(s, Begin), t) ensures Due(Step(s, Begin), t) {
        BeginDue(s, t);
        if !Concerned(s, t) { RegisteredAre(s.records); }
      }
    }
  }

  lemma MembershipKeepsDue(s: State, e: Event)
    requires Invariant(s) && AllDue(s) && (e.Attach? || e.Dispose?)
    ensures AllDue(Step(s, e))
  {
    forall t: nat | Concerned(Step(s, e), t) ensures Due(Step(s, e), t) { assert Concerned(s, t); }
  }

  /** Main result, one step: benign events keep everyone due. */
  lemma StepKeepsDue(s: State, e: Event)
    requires Invariant(s) && AllDue(s) && Benign(s, e)
    ensures AllDue(Step(s, e))
  {
    match e
    case Set(key, value) => AppliedKeepsDueIff(s, map[key := value], Merge, None);
    case Delete(key) => if key in s.model.Keys { RecordedAllDueIff(s, s.model - {key}, {key}, None); }
    case Restore(incoming, mode, origin) => AppliedKeepsDueIff(s, incoming, mode, origin);
    case Receive(from, incoming, mode, origin) =>
      if from < |s.records| && !s.records[from].disposed { ReceivedKeepsDueIff(s, from, incoming, mode, origin); }
    case Attach(_, _) => MembershipKeepsDue(s, e);
    case Dispose(_) => MembershipKeepsDue(s, e);
    case Begin => BeginKeepsDue(s);
    case Deliver(succeeds, rethrows) =>
      if s.delivering.Some? {
        forall t: nat | Concerned(Step(s, e), t) ensures Due(Step(s, e), t) { DeliverDue(s, t); }
      }
  }

  ghost predicate BenignRun(s: State, es: seq<Event>)
    decreases |es|
  {
    |es| == 0 || (Benign(s, es[0]) && BenignRun(Step(s, es[0]), es[1..]))
  }

  lemma {:induction false} BenignRunKeepsDue(s: State, es: seq<Event>)
    requires Invariant(s) && AllDue(s) && BenignRun(s, es)
    ensures Invariant(Run(s, es)) && AllDue(Run(s, es))
    decreases |es|
  {
    if |es| > 0 {
      StepKeepsInvariant(s, es[0]);
      StepKeepsDue(s, es[0]);
      BenignRunKeepsDue(Step(s, es[0]), es[1..]);
    }
  }

  /** Main result: at rest after any benign run, every live target that has exchanged a state holds the model. */
  lemma Convergence(model: Model, es: seq<Event>, t: nat)
    requires BenignRun(Initial(model), es)
    requires var s := Run(Initial(model), es); Quiet(s) && Live(s, t) && s.records[t].exchanged
    ensures var s := Run(Initial(model), es); s.records[t].held == s.model
  {
    BenignRunKeepsDue(Initial(model), es);
    assert Due(Run(Initial(model), es), t);
  }

  // ---- batches of one origin

  /** The pending batch, if there is one, bears this origin. */
  predicate SameBatch(s: State, origin: Option<Origin>) { s.pending == {} || s.pendingOrigin == origin }

  /**
   * The application changes the model under no target's origin, targets send whole states under their own and not
   * while a flush still has one for them, no batch mixes origins, and writes succeed.
   */
  predicate SingleOrigin(s: State, e: Event) {
    match e
    case Set(_, _) => SameBatch(s, None)
    case Delete(_) => SameBatch(s, None)
    case Restore(_, _, origin) => SameBatch(s, origin) && (origin.Some? ==> origin.value.Label?)
    case Receive(from, _, mode, origin) => mode == Replace && origin == None && SameBatch(s, Some(Sync(from)))
        && !Awaiting(s, from)
    case Deliver(succeeds, _) => succeeds
    case _ => true
  }

  lemma SingleOriginIsBenign(s: State, e: Event)
    requires Invariant(s) && AllDue(s) && SingleOrigin(s, e)
    ensures Benign(s, e)
  {
    match e
    case Receive(from, incoming, mode, origin) =>
      if from < |s.records| && !s.records[from].disposed {
        if Changed(s.model, incoming, mode) == {} { UnchangedIsSame(s.model, incoming, mode); }
        if Live(s, from) { TookSender(s, from, incoming, mode); }
        forall t: nat ensures Live(Took(s, from, incoming, mode), t)
            <==> Live(s, t) { TookLive(s, from, incoming, mode, t); }
      }
    case _ =>
  }

  ghost predicate SingleOriginRun(s: State, es: seq<Event>)
    decreases |es|
  {
    |es| == 0 || (SingleOrigin(s, es[0]) && SingleOriginRun(Step(s, es[0]), es[1..]))
  }

  lemma {:induction false} SingleOriginRunIsBenign(s: State, es: seq<Event>)
    requires Invariant(s) && AllDue(s) && SingleOriginRun(s, es)
    ensures BenignRun(s, es)
    decreases |es|
  {
    if |es| > 0 {
      SingleOriginIsBenign(s, es[0]);
      StepKeepsInvariant(s, es[0]);
      StepKeepsDue(s, es[0]);
      SingleOriginRunIsBenign(Step(s, es[0]), es[1..]);
    }
  }

  /** Main result: runs whose batches have one origin each converge. */
  lemma SingleOriginConverges(model: Model, es: seq<Event>, t: nat)
    requires SingleOriginRun(Initial(model), es)
    requires var s := Run(Initial(model), es); Quiet(s) && Live(s, t) && s.records[t].exchanged
    ensures var s := Run(Initial(model), es); s.records[t].held == s.model
  {
    SingleOriginRunIsBenign(Initial(model), es);
    Convergence(model, es, t);
  }

  // ---- how agreement is lost

  /**
   * A change that joins a batch some target began takes that target's origin (`??=`): the target is never told.
   */
  lemma JoinedBatchIsLost(s: State, t: nat, incoming: Model, mode: Mode, origin: Option<Origin>)
    requires Invariant(s) && Live(s, t) && s.pendingOrigin == Some(Sync(t)) && Changed(s.model, incoming, mode) != {}
    ensures var s' := Step(s, Restore(incoming, mode, origin));
            Live(Drain(s'), t) && Drain(s').records[t].held == Ready(s, t)
  {
    var s' := Step(s, Restore(incoming, mode, origin));
    StepKeepsInvariant(s, Restore(incoming, mode, origin));
    RecordedDue(s, After(s.model, incoming, mode), Changed(s.model, incoming, mode), origin, t);
    DrainExact(s', t);
  }

  /**
   * A target that sends a state while a flush still has an older one for it is overwritten with the older one,
   * and not told the newer, which bears its own origin.
   */
  lemma SentDuringFlushIsLost(s: State, t: nat, incoming: Model)
    requires Invariant(s) && s.pending == {} && Awaiting(s, t) && Changed(s.model, incoming, Replace) != {}
    ensures var s' := Step(s, Receive(t, incoming, Replace, None));
            Live(Drain(s'), t) && Drain(s').model == incoming && Drain(s').records[t].held == s.model
  {
    var s1 := Took(s, t, incoming, Replace);
    StepKeepsInvariant(s, Receive(t, incoming, Replace, None));
    TookSender(s, t, incoming, Replace);
    RecordedDue(s1, incoming, Changed(s.model, incoming, Replace), Some(Sync(t)), t);
    DrainExact(Step(s, Receive(t, incoming, Replace, None)), t);
  }

  function One(n: int): Model { map["a" := Atom(n)] }

  /** A target has sent {a: 1}, which is still pending. */
  const PENDING_SEND := State(One(1), {"a"}, Some(Sync(0)), true, 1, 0, [Record(true, Report, false, One(1), true)],
      None,
                             multiset{"a"}, [], [])

  lemma OneChanges(m: Model, n: int, mode: Mode)
    requires m == map[] || exists k :: k != n && m == One(k)
    ensures Changed(m, One(n), mode) == {"a"} && After(m, One(n), mode) == One(n)
  {
    assert One(n).Keys == {"a"};
  }

  lemma PendingSendIsReachable()
    ensures Run(Initial(map[]), [Attach(true, Report), Receive(0, One(1), Replace, None)]) == PENDING_SEND
  {
    var s1 := Step(Initial(map[]), Attach(true, Report));
    RunTwo(Initial(map[]), Attach(true, Report), Receive(0, One(1), Replace, None));
    OneChanges(map[], 1, Replace);
    assert Took(s1, 0, One(1), Replace).records == PENDING_SEND.records;
    assert {"a"} - {} == {"a"};
  }

  lemma RunTwo(s: State, a: Event, b: Event)
    ensures Run(s, [a, b]) == Step(Step(s, a), b)
  {
    assert [a, b][1..] == [b];
    RunOne(Step(s, a), b);
  }

  lemma RunOne(s: State, e: Event)
    ensures Run(s, [e]) == Step(s, e)
  {
    assert [e][1..] == [];
  }

  /** The smallest run that ends in disagreement: the application sets a to 2 before the flush. */
  lemma MixedBatchLosesAgreement()
    ensures var s := Drain(Step(PENDING_SEND, Set("a", Atom(2))));
            s.model == One(2) && |s.records| == 1 && s.records[0].held == One(1)
  {
    PendingSendIsReachable();
    EveryRun(map[], [Attach(true, Report), Receive(0, One(1), Replace, None)]);
    OneChanges(One(1), 2, Merge);
    assert Step(PENDING_SEND, Set("a", Atom(2))) == Step(PENDING_SEND, Restore(One(2), Merge, None));
    JoinedBatchIsLost(PENDING_SEND, 0, One(2), Merge, None);
    DrainKeepsRecords(Step(PENDING_SEND, Set("a", Atom(2))));
  }

  /** A flush of {a: 1} has written the first of two targets. */
  const HALF_FLUSHED := State(One(1), {}, None, false, 0, 1,
                             [Record(true, Report, false, One(1), true), Record(true, Report, false, map[], false)],
                             Some(Delivery(Change(None, {"a"}, 1), One(1), [1])),
                             multiset{"a"}, [Sent(Change(None, {"a"}, 1))], [Write(0, Change(None, {"a"}, 1), One(1))])

  const TWO_TARGETS := State(One(1), {"a"}, None, true, 1, 0,
                            [Record(true, Report, false, map[], false), Record(true, Report, false, map[], false)],
                                None,
                            multiset{"a"}, [], [])

  lemma TwoTargetsIsReachable()
    ensures Run(Initial(map[]), [Attach(true, Report), Attach(true, Report), Set("a", Atom(1))]) == TWO_TARGETS
  {
    var a := Attach(true, Report);
    assert [a, a, Set("a", Atom(1))][1..] == [a, Set("a", Atom(1))];
    var s1 := Step(Initial(map[]), a);
    RunTwo(s1, a, Set("a", Atom(1)));
    OneChanges(map[], 1, Merge);
    assert Step(s1, a).records == TWO_TARGETS.records;
    assert {"a"} - {} == {"a"};
  }

  lemma HalfFlushedFollows()
    ensures Run(TWO_TARGETS, [Begin, Deliver(true, false)]) == HALF_FLUSHED
  {
    RunTwo(TWO_TARGETS, Begin, Deliver(true, false));
    var r := TWO_TARGETS.records;
    assert r[..1][..0] == [] && Registered(r[..1]) == Registered(r[..1][..0]) + [0];
    assert Registered(r) == [0, 1];
    var s1 := Step(TWO_TARGETS, Begin);
    var d := s1.delivering.value;
    assert d == Delivery(Change(None, {"a"}, 1), One(1), [0, 1]);
    assert d.rest[1..] == [1];
    assert r[0 := r[0].(held := One(1), exchanged := true)] == HALF_FLUSHED.records;
  }

  lemma HalfFlushedIsReachable()
    ensures Run(Initial(map[]), [Attach(true, Report), Attach(true, Report), Set("a", Atom(1)), Begin,
            Deliver(true, false)]) == HALF_FLUSHED
    ensures Invariant(HALF_FLUSHED) && HALF_FLUSHED.pending == {} && Awaiting(HALF_FLUSHED, 1)
  {
    var first, last := [Attach(true, Report), Attach(true, Report), Set("a", Atom(1))], [Begin, Deliver(true, false)];
    assert first + last == [Attach(true, Report), Attach(true, Report), Set("a", Atom(1)), Begin, Deliver(true, false)];
    RunAppend(Initial(map[]), first, last);
    TwoTargetsIsReachable();
    HalfFlushedFollows();
    EveryRun(map[], first + last);
    assert 1 in HALF_FLUSHED.delivering.value.rest;
  }

  /** Such a state is reachable, and a send of {a: 2} by the second target is then lost on it. */
  lemma SendDuringFlushLosesAgreement()
    ensures Run(Initial(map[]), [Attach(true, Report), Attach(true, Report), Set("a", Atom(1)), Begin,
            Deliver(true, false)]) == HALF_FLUSHED
    ensures var s := Drain(Step(HALF_FLUSHED, Receive(1, One(2), Replace, None)));
            s.model == One(2) && |s.records| == 2 && s.records[1].held == One(1)
  {
    HalfFlushedIsReachable();
    OneChanges(One(1), 2, Replace);
    SentDuringFlushIsLost(HALF_FLUSHED, 1, One(2));
    DrainKeepsRecords(Step(HALF_FLUSHED, Receive(1, One(2), Replace, None)));
  }

  lemma {:induction false} RunAppend(s: State, a: seq<Event>, b: seq<Event>)
    ensures Run(s, a + b) == Run(Run(s, a), b)
    decreases |a|
  {
    if |a| == 0 {
      assert a + b == b;
    } else {
      assert (a + b)[1..] == a[1..] + b;
      RunAppend(Step(s, a[0]), a[1..], b);
    }
  }

  lemma {:induction false} DrainKeepsRecords(s: State)
    ensures |Drain(s).records| == |s.records|
    decreases s.queued, if s.delivering.Some? then |s.delivering.value.rest| + 1 else 0
  {
    if s.delivering.Some? { DrainKeepsRecords(Step(s, Deliver(true, false))); }
    else if s.queued > 0 { DrainKeepsRecords(Step(s, Begin)); }
  }
}
