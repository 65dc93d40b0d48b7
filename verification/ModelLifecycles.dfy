/** `attachModelLifecycle` as an object, proved against the steps of ModelSync. */
module ModelLifecycles {
  import opened Basics
  import opened ModelSync

  /**
   * What a write does besides taking the snapshot: whether it succeeds, whether the exception handler would rethrow
   * a failure reported to it, and what the write makes happen meanwhile.
   */
  datatype Reaction = Reaction(succeeds: bool, rethrows: bool, meanwhile: seq<Event>)

  /** A whole flush in steps: what is left of the one under way, with the reactions of the writes it still makes. */
  function Flushed(s: State, reactions: seq<Reaction>): State
    decreases if s.delivering.Some? then |s.delivering.value.rest| + 1 else 0
  {
    if s.delivering.None? then s
    else if s.delivering.value.rest == [] || !Takes(s, s.delivering.value, s.delivering.value.rest[0]) then
      DeliverShortens(s, true, false);
      Flushed(Step(s, Deliver(true, false)), reactions)
    else
      var r := if reactions == [] then Reaction(true, false, []) else reactions[0];
      var next := Meanwhile(Step(s, Deliver(r.succeeds, r.rethrows)), r.meanwhile);
      DeliverShortens(s, r.succeeds, r.rethrows);
      MeanwhileKeepsDelivering(Step(s, Deliver(r.succeeds, r.rethrows)), r.meanwhile);
      Flushed(next, if reactions == [] then [] else reactions[1..])
  }

  lemma FlushedSkips(s: State, t: nat, reactions: seq<Reaction>)
    requires s.delivering.Some? && |s.delivering.value.rest| > 0 && s.delivering.value.rest[0] == t
    requires !Takes(s, s.delivering.value, t)
    ensures Flushed(s, reactions) == Flushed(Step(s, Deliver(true, false)), reactions)
  {
  }

  lemma FlushedWrites(s: State, t: nat, r: Reaction, reactions: seq<Reaction>)
    requires s.delivering.Some? && |s.delivering.value.rest| > 0 && s.delivering.value.rest[0] == t
    requires Takes(s, s.delivering.value, t) && r == (if reactions == [] then Reaction(true, false, [])
            else reactions[0])
    ensures Flushed(s, reactions)
         == Flushed(Meanwhile(Step(s, Deliver(r.succeeds, r.rethrows)), r.meanwhile), if reactions == [] then []
             else reactions[1..])
  {
  }

  lemma FlushedEnds(s: State, reactions: seq<Reaction>)
    requires s.delivering.Some? && s.delivering.value.rest == []
    ensures Flushed(s, reactions) == s.(delivering := None)
  {
  }

  /** What happens during a write; a flush inside a flush does nothing. */
  function Meanwhile(s: State, es: seq<Event>): State
    decreases |es|
  {
    if |es| == 0 then s else Meanwhile(if es[0].Begin? || es[0].Deliver? then s else Step(s, es[0]), es[1..])
  }

  lemma DeliverShortens(s: State, succeeds: bool, rethrows: bool)
    requires s.delivering.Some?
    ensures var s' := Step(s, Deliver(succeeds, rethrows));
            s'.delivering.None? || |s'.delivering.value.rest| < |s.delivering.value.rest|
  {
  }

  lemma StepKeepsDelivering(s: State, e: Event)
    requires !e.Begin? && !e.Deliver?
    ensures Step(s, e).delivering == s.delivering
  {
  }

  lemma {:induction false} MeanwhileKeepsDelivering(s: State, es: seq<Event>)
    ensures Meanwhile(s, es).delivering == s.delivering
    decreases |es|
  {
    if |es| > 0 {
      if !es[0].Begin? && !es[0].Deliver? { StepKeepsDelivering(s, es[0]); }
      MeanwhileKeepsDelivering(if es[0].Begin? || es[0].Deliver? then s else Step(s, es[0]), es[1..]);
    }
  }

  lemma {:induction false} MeanwhileKeepsInvariant(s: State, es: seq<Event>)
    requires Invariant(s)
    ensures Invariant(Meanwhile(s, es))
    decreases |es|
  {
    if |es| > 0 {
      if !es[0].Begin? && !es[0].Deliver? { StepKeepsInvariant(s, es[0]); }
      MeanwhileKeepsInvariant(if es[0].Begin? || es[0].Deliver? then s else Step(s, es[0]), es[1..]);
    }
  }

  /** A whole flush is made of steps: it keeps the invariant whatever its writes make happen. */
  lemma {:induction false} FlushedKeepsInvariant(s: State, reactions: seq<Reaction>)
    requires Invariant(s)
    ensures Invariant(Flushed(s, reactions)) && Flushed(s, reactions).delivering.None?
    decreases if s.delivering.Some? then |s.delivering.value.rest| + 1 else 0
  {
    if s.delivering.Some? {
      if s.delivering.value.rest == [] || !Takes(s, s.delivering.value, s.delivering.value.rest[0]) {
        StepKeepsInvariant(s, Deliver(true, false));
        FlushedKeepsInvariant(Step(s, Deliver(true, false)), reactions);
      } else {
        var r := if reactions == [] then Reaction(true, false, []) else reactions[0];
        StepKeepsInvariant(s, Deliver(r.succeeds, r.rethrows));
        MeanwhileKeepsInvariant(Step(s, Deliver(r.succeeds, r.rethrows)), r.meanwhile);
        DeliverShortens(s, r.succeeds, r.rethrows);
        MeanwhileKeepsDelivering(Step(s, Deliver(r.succeeds, r.rethrows)), r.meanwhile);
        FlushedKeepsInvariant(Meanwhile(Step(s, Deliver(r.succeeds, r.rethrows)), r.meanwhile), if reactions == []
            then [] else reactions[1..]);
      }
    }
  }

  /** With writes that succeed and touch nothing, it is what Drain does. */
  lemma {:induction false} FlushedDrains(s: State)
    requires s.delivering.Some? && s.queued == 0
    ensures Flushed(s, []) == Drain(s)
    decreases |s.delivering.value.rest|
  {
    var s' := Step(s, Deliver(true, false));
    assert Meanwhile(s', []) == s';
    if s'.delivering.Some? { FlushedDrains(s'); }
  }

  /** Recording some keys and then some more is recording all of them. */
  lemma RecordedTwice(s: State, a: set<Key>, b: set<Key>, origin: Option<Origin>)
    ensures Recorded(Recorded(s, a, origin), b, origin) == Recorded(s, a + b, origin)
  {
    assert a + {} == a && {} + b == b;
    if a != {} && b != {} {
      assert (s.pending + a) + b == s.pending + (a + b);
      RecordedCounts(s.pending, a, b);
      assert (s.recorded + multiset(a - s.pending)) + multiset(b - (s.pending + a))
          == s.recorded + multiset((a + b) - s.pending);
    }
  }

  lemma RecordedCounts(p: set<Key>, a: set<Key>, b: set<Key>)
    ensures multiset(a - p) + multiset(b - (p + a)) == multiset((a + b) - p)
  {
  }

  lemma RecordedOf(s: State, m: Model, keys: set<Key>, origin: Option<Origin>)
    ensures Recorded(s.(model := m), keys, origin) == Recorded(s, keys, origin).(model := m)
  {
  }

  class ModelLifecycle {
    var target: Model
    var pendingKeys: set<Key>
    var pendingOrigin: Option<Origin>
    var scheduled: bool
    var queued: nat
    var snapshotVersion: nat
    var currentOrigin: Option<Origin>
    var syncRecords: seq<Record>
    ghost var delivering: Option<Delivery>
    ghost var recorded: multiset<Key>
    ghost var departed: seq<Departure>
    ghost var writes: seq<Write>

    ghost function Now(): State
      reads this
    {
      State(target, pendingKeys, pendingOrigin, scheduled, queued, snapshotVersion,
            syncRecords, delivering, recorded, departed, writes)
    }

    constructor (model: Model)
      ensures Now() == Initial(model) && currentOrigin == None
    {
      target, pendingKeys, pendingOrigin, scheduled, queued, snapshotVersion := model, {}, None, false, 0, 0;
      currentOrigin, syncRecords := None, [];
      delivering, recorded, departed, writes := None, multiset{}, [], [];
    }

    /** `tracker.record` */
    method Track(key: Key)
      modifies this
      ensures Now() == Recorded(old(Now()), {key}, old(currentOrigin)) && currentOrigin == old(currentOrigin)
    {
      TrackIs(Now(), key, currentOrigin);
      recorded := recorded + multiset({key} - pendingKeys);
      pendingKeys := pendingKeys + {key};
      if pendingOrigin.None? { pendingOrigin := currentOrigin; }
      if !scheduled {
        scheduled := true;
        queued := queued + 1;
      }
    }

    /** A slot is assigned through the model: recorded unless what is assigned is identical. */
    method SetSlot(key: Key, value: Value)
      modifies this
      ensures var changed := if key in old(target).Keys && Identical(old(target)[key], value) then {} else {key};
              Now() == Recorded(old(Now()).(model := old(target)[key := value]), changed, old(currentOrigin))
      ensures currentOrigin == old(currentOrigin) && target == old(target)[key := value]
    {
      var same := key in target.Keys && Identical(target[key], value);
      ghost var before := Now();
      if !same { Track(key); }
      target := target[key := value];
      RecordedOf(before, target, if same then {} else {key}, currentOrigin);
    }

    method DeleteSlot(key: Key)
      requires key in target.Keys
      modifies this
      ensures Now() == Recorded(old(Now()).(model := old(target) - {key}), {key}, old(currentOrigin))
      ensures currentOrigin == old(currentOrigin) && target == old(target) - {key}
    {
      ghost var before := Now();
      Track(key);
      target := target - {key};
      RecordedOf(before, target, {key}, currentOrigin);
    }

    /** The loop that deletes what the incoming state does not have. */
    method DeleteOthers(next: Model)
      modifies this
      ensures Now() == Recorded(old(Now()).(model := Kept(old(target), next)), old(target).Keys - next.Keys,
              old(currentOrigin))
      ensures currentOrigin == old(currentOrigin)
    {
      ghost var before, was, gone := Now(), target, target.Keys - next.Keys;
      var todo := target.Keys - next.Keys;
      ghost var done: set<Key> := {};
      assert Without(was, {}) == was;
      while todo != {}
        invariant todo <= gone && done == gone - todo
        invariant target == Without(was, done)
        invariant Now() == Recorded(before.(model := target), done, currentOrigin)
        invariant currentOrigin == old(currentOrigin)
        decreases todo
      {
        var key :| key in todo;
        WithoutMore(was, done, key);
        RecordedMore(before, target, done, Now(), target - {key}, {key}, currentOrigin);
        DeleteSlot(key);
        OneLess(gone, todo, key);
        todo, done := todo - {key}, done + {key};
      }
      assert gone - {} == gone;
    }

    /** The loop that assigns every slot of the incoming state. */
    method AssignAll(next: Model)
      modifies this
      ensures Now() == Applied(old(Now()), next, Merge, old(currentOrigin)) && currentOrigin == old(currentOrigin)
    {
      ghost var before, was := Now(), target;
      var todo := next.Keys;
      ghost var done: set<Key> := {};
      assert Assigned(was, next, {}) == was;
      while todo != {}
        invariant todo <= next.Keys && done == next.Keys - todo
        invariant target == Assigned(was, next, done)
        invariant Now() == Recorded(before.(model := target), ChangedIn(was, next, done), currentOrigin)
        invariant currentOrigin == old(currentOrigin)
        decreases todo
      {
        var key :| key in todo;
        AssignedMore(was, next, done, key);
        RecordedMore(before, target, ChangedIn(was, next, done), Now(), target[key := next[key]],
                     if key in was.Keys && Identical(was[key], next[key]) then {} else {key}, currentOrigin);
        SetSlot(key, next[key]);
        OneLess(next.Keys, todo, key);
        todo, done := todo - {key}, done + {key};
      }
      assert next.Keys - {} == next.Keys;
      AssignedWhole(was, next);
    }

    /** `$restore` */
    method Restore(incoming: Model, mode: Mode, origin: Option<Origin>)
      modifies this
      ensures Now() == Applied(old(Now()), incoming, mode, origin) && currentOrigin == old(currentOrigin)
    {
      ghost var before := Now();
      var previousOrigin := currentOrigin;
      currentOrigin := origin;
      if mode == Replace {
        DeleteOthers(incoming);
      }
      AssignAll(incoming);
      currentOrigin := previousOrigin;
      if mode == Replace { ReplacedIsApplied(before, incoming, origin); }
    }

    /** `$sync`, up to what its target sends. */
    method Attach(hasWrite: bool, failure: Failure) returns (number: nat)
      modifies this
      ensures Now() == Step(old(Now()), Event.Attach(hasWrite, failure)) && currentOrigin == old(currentOrigin)
      ensures number == |old(syncRecords)|
    {
      number := |syncRecords|;
      syncRecords := syncRecords + [Record(hasWrite, failure, false, map[], false)];
    }

    /** The function a target's `receive` is given; also what becomes of the state its `restore` returns. */
    method Receive(from: nat, incoming: Model, mode: Mode, origin: Option<Origin>)
      modifies this
      ensures Now() == Step(old(Now()), Event.Receive(from, incoming, mode, origin))
              && currentOrigin == old(currentOrigin)
    {
      if from >= |syncRecords| || syncRecords[from].disposed { return; }
      syncRecords := syncRecords[from := syncRecords[from].(held := After(syncRecords[from].held, incoming, mode),
          exchanged := true)];
      Restore(incoming, mode, if origin.Some? then origin else Some(Sync(from)));
    }

    /** `disposeModelSyncRecord` */
    method Dispose(target: nat)
      modifies this
      ensures Now() == Step(old(Now()), Event.Dispose(target)) && currentOrigin == old(currentOrigin)
    {
      if target >= |syncRecords| || syncRecords[target].disposed {
        DisposedAlready(Now(), target);
        return;
      }
      syncRecords := syncRecords[target := syncRecords[target].(disposed := true)];
    }

    /** Anything the application or a target does. */
    method Perform(e: Event)
      requires !e.Begin? && !e.Deliver? && currentOrigin == None
      modifies this
      ensures Now() == Step(old(Now()), e) && currentOrigin == None
    {
      match e {
        case Set(key, value) => SetIsApplied(Now(), key, value); SetSlot(key, value);
        case Delete(key) => if key in target.Keys { DeleteSlot(key); }
        case Restore(incoming, mode, origin) => Restore(incoming, mode, origin);
        case Receive(from, incoming, mode, origin) => Receive(from, incoming, mode, origin);
        case Attach(hasWrite, failure) => var _ := Attach(hasWrite, failure);
        case Dispose(t) => Dispose(t);
      }
    }

    method PerformAll(es: seq<Event>)
      requires currentOrigin == None
      modifies this
      ensures Now() == Meanwhile(old(Now()), es) && currentOrigin == None
    {
      var i := 0;
      while i < |es|
        invariant 0 <= i <= |es| && currentOrigin == None
        invariant Meanwhile(Now(), es[i..]) == Meanwhile(old(Now()), es)
      {
        assert es[i..][0] == es[i] && es[i..][1..] == es[i + 1..];
        if !es[i].Begin? && !es[i].Deliver? { Perform(es[i]); }
        i := i + 1;
      }
    }

    /** `Array.from(syncRecords)` */
    method Snapshot() returns (numbers: seq<nat>)
      ensures numbers == Registered(syncRecords)
    {
      numbers := [];
      var i := 0;
      while i < |syncRecords|
        invariant 0 <= i <= |syncRecords| && numbers == Registered(syncRecords[..i])
      {
        assert syncRecords[..i + 1][..i] == syncRecords[..i];
        if !syncRecords[i].disposed { numbers := numbers + [i]; }
        i := i + 1;
      }
      assert syncRecords[..|syncRecords|] == syncRecords;
    }

    /** The head of `flushChanges`: take the batch, and a snapshot to write. */
    method TakeBatch() returns (batch: Option<Delivery>)
      requires queued > 0 && delivering == None && currentOrigin == None
      modifies this
      ensures Now() == Step(old(Now()), Begin) && batch == delivering && currentOrigin == None
    {
      var numbers := Snapshot();
      if pendingKeys == {} || numbers == [] {
        DropBatch(numbers);
        return None;
      }
      batch := SendBatch(numbers);
    }

    method DropBatch(ghost numbers: seq<nat>)
      requires queued > 0 && (pendingKeys == {} || numbers == []) && numbers == Registered(syncRecords)
      modifies this
      ensures Now() == Begun(old(Now())) && currentOrigin == old(currentOrigin) && delivering == old(delivering)
    {
      departed := departed + [Dropped(pendingKeys)];
      scheduled, queued, pendingKeys, pendingOrigin := false, queued - 1, {}, None;
    }

    method SendBatch(numbers: seq<nat>) returns (batch: Option<Delivery>)
      requires queued > 0 && pendingKeys != {} && numbers != [] && numbers == Registered(syncRecords)
      modifies this
      ensures Now() == Begun(old(Now())) && currentOrigin == old(currentOrigin) && batch == delivering
    {
      SendIs(Now(), numbers);
      var change := Change(pendingOrigin, pendingKeys, snapshotVersion + 1);
      scheduled, queued, pendingKeys, pendingOrigin := false, queued - 1, {}, None;
      snapshotVersion := snapshotVersion + 1;
      departed := departed + [Sent(change)];
      batch := Some(Delivery(change, target, numbers));
      delivering := batch;
    }

    /** `flushChanges`, called by the scheduler: one whole batch, with whatever the writes make happen. */
    method FlushChanges(reactions: seq<Reaction>)
      requires queued > 0 && delivering == None && currentOrigin == None
      modifies this
      ensures Now() == Flushed(Step(old(Now()), Begin), reactions) && delivering == None && currentOrigin == None
    {
      var batch := TakeBatch();
      ghost var begun := Now();
      if batch.None? { return; }
      var change, snapshot, numbers := batch.value.change, batch.value.snapshot, batch.value.rest;
      var i, left := 0, reactions;
      while i < |numbers|
        invariant 0 <= i <= |numbers| && currentOrigin == None
        invariant delivering == Some(Delivery(change, snapshot, numbers[i..]))
        invariant Flushed(Now(), left) == Flushed(begun, reactions)
      {
        var t := numbers[i];
        assert numbers[i..] == [t] + numbers[i + 1..];
        i := i + 1;
        if t >= |syncRecords| || syncRecords[t].disposed || change.origin == Some(Sync(t)) || !syncRecords[t].hasWrite {
          FlushedSkips(Now(), t, left);
          Skip(t, change, snapshot, numbers[i..]);
        } else {
          var r := if left == [] then Reaction(true, false, []) else left[0];
          FlushedWrites(Now(), t, r, left);
          left := if left == [] then [] else left[1..];
          var aborted := WriteTarget(t, change, snapshot, numbers[i..], r.succeeds, r.rethrows);
          MeanwhileKeepsDelivering(Now(), r.meanwhile);
          PerformAll(r.meanwhile);
          if aborted { return; }
        }
      }
      FlushedEnds(Now(), left);
      delivering := None;
    }

    ghost method Skip(t: nat, change: Change, snapshot: Model, rest: seq<nat>)
      requires delivering == Some(Delivery(change, snapshot, [t] + rest)) && !Takes(Now(), delivering.value, t)
      modifies this`delivering
      ensures Now() == Step(old(Now()), Deliver(true, false)) && delivering == Some(Delivery(change, snapshot, rest))
    {
      assert ([t] + rest)[1..] == rest;
      delivering := Some(Delivery(change, snapshot, rest));
    }

    /** One write; a failure is reported, which ends the flush if the exception handler rethrows, ignored or thrown. */
    method WriteTarget(t: nat, change: Change, snapshot: Model, ghost rest: seq<nat>, succeeds: bool, rethrows: bool)
      returns (aborted: bool)
      requires delivering == Some(Delivery(change, snapshot, [t] + rest)) && Takes(Now(), delivering.value, t)
      requires currentOrigin == None
      modifies this
      ensures Now() == Step(old(Now()), Deliver(succeeds, rethrows)) && currentOrigin == None
      ensures aborted <==> delivering == None
      ensures !aborted ==> delivering == Some(Delivery(change, snapshot, rest))
    {
      assert ([t] + rest)[1..] == rest;
      delivering := Some(Delivery(change, snapshot, rest));
      if succeeds {
        syncRecords := syncRecords[t := syncRecords[t].(held := snapshot, exchanged := true)];
        writes := writes + [Write(t, change, snapshot)];
      } else if Aborts(syncRecords[t].failure, rethrows) {
        delivering := None;
        return true;
      }
      return false;
    }
  }

  lemma TrackIs(s: State, key: Key, origin: Option<Origin>)
    ensures Recorded(s, {key}, origin)
         == State(s.model, s.pending + {key}, FirstOrigin(s, origin), true, if s.scheduled then s.queued
             else s.queued + 1,
                  s.version, s.records, s.delivering, s.recorded + multiset({key} - s.pending), s.departed, s.writes)
  {
    assert key in {key};
  }

  lemma SendIs(s: State, numbers: seq<nat>)
    requires s.queued > 0 && s.pending != {} && numbers != [] && numbers == Registered(s.records)
    ensures var change := Change(s.pendingOrigin, s.pending, s.version + 1);
            Begun(s) == State(s.model, {}, None, false, s.queued - 1, s.version + 1, s.records,
                              Some(Delivery(change, s.model, numbers)), s.recorded, s.departed + [Sent(change)],
                                  s.writes)
  {
  }

  lemma DisposedAlready(s: State, t: nat)
    requires t >= |s.records| || s.records[t].disposed
    ensures Step(s, Event.Dispose(t)) == s
  {
  }

  lemma ChangedByOne(m: Model, key: Key, value: Value)
    ensures Changed(m, map[key := value], Merge) == if key in m.Keys && Identical(m[key], value) then {} else {key}
  {
    var one: Model := map[key := value];
    assert one.Keys == {key};
  }

  lemma SetIsApplied(s: State, key: Key, value: Value)
    ensures var changed := if key in s.model.Keys && Identical(s.model[key], value) then {} else {key};
            Step(s, Set(key, value)) == Recorded(s.(model := s.model[key := value]), changed, None)
  {
    var one: Model := map[key := value];
    ChangedByOne(s.model, key, value);
    assert After(s.model, one, Merge) == s.model + one == s.model[key := value];
    assert Step(s, Set(key, value)) == Applied(s, one, Merge, None);
    RecordedOf(s, s.model[key := value], Changed(s.model, one, Merge), None);
  }

  /** The slots the incoming state has too. */
  function Kept(m: Model, incoming: Model): Model {
    Without(m, m.Keys - incoming.Keys)
  }

  function Without(m: Model, keys: set<Key>): Model {
    map k | k in m.Keys && k !in keys :: m[k]
  }

  lemma OneLess(all: set<Key>, todo: set<Key>, key: Key)
    requires key in todo && todo <= all
    ensures all - (todo - {key}) == (all - todo) + {key}
  {
  }

  lemma WithoutMore(m: Model, keys: set<Key>, key: Key)
    ensures Without(m, keys) - {key} == Without(m, keys + {key})
  {
  }

  /** The incoming slots assigned so far, and which of them changed. */
  function Assigned(m: Model, next: Model, keys: set<Key>): Model
    requires keys <= next.Keys
  {
    m + (map k | k in keys :: next[k])
  }

  function ChangedIn(m: Model, next: Model, keys: set<Key>): set<Key>
    requires keys <= next.Keys
  {
    set k | k in keys && !(k in m.Keys && Identical(m[k], next[k]))
  }

  lemma AssignedMore(m: Model, next: Model, keys: set<Key>, key: Key)
    requires keys <= next.Keys && key in next.Keys && key !in keys
    ensures Assigned(m, next, keys)[key := next[key]] == Assigned(m, next, keys + {key})
    ensures key in Assigned(m, next, keys).Keys <==> key in m.Keys
    ensures key in m.Keys ==> Assigned(m, next, keys)[key] == m[key]
    ensures ChangedIn(m, next, keys + {key})
         == ChangedIn(m, next, keys) + (if key in m.Keys && Identical(m[key], next[key]) then {} else {key})
  {
  }

  lemma AssignedWhole(m: Model, next: Model)
    ensures Assigned(m, next, next.Keys) == m + next && ChangedIn(m, next, next.Keys) == Changed(m, next, Merge)
  {
    assert (map k | k in next.Keys :: next[k]) == next;
  }

  /** Some keys recorded, another slot changed and its keys recorded too. */
  lemma RecordedMore(before: State, m: Model, done: set<Key>, now: State, m': Model, more: set<Key>,
      origin: Option<Origin>)
    requires now == Recorded(before.(model := m), done, origin)
    ensures Recorded(now.(model := m'), more, origin) == Recorded(before.(model := m'), done + more, origin)
  {
    RecordedOf(before.(model := m), m', done, origin);
    RecordedTwice(before.(model := m'), done, more, origin);
  }

  lemma KeptIsReplaced(m: Model, incoming: Model)
    ensures Kept(m, incoming) + incoming == incoming
    ensures (m.Keys - incoming.Keys) + Changed(Kept(m, incoming), incoming, Merge) == Changed(m, incoming, Replace)
  {
    assert Kept(m, incoming).Keys <= incoming.Keys;
  }

  /** Deleting the other slots and assigning the incoming ones is the restore in replace mode. */
  lemma ReplacedIsApplied(s: State, incoming: Model, origin: Option<Origin>)
    ensures Applied(Recorded(s.(model := Kept(s.model, incoming)), s.model.Keys - incoming.Keys, origin), incoming,
            Merge, origin)
         == Applied(s, incoming, Replace, origin)
  {
    var kept := Kept(s.model, incoming);
    var gone := s.model.Keys - incoming.Keys;
    KeptIsReplaced(s.model, incoming);
    RecordedOf(s.(model := kept), incoming, gone, origin);
    RecordedTwice(s.(model := incoming), gone, Changed(kept, incoming, Merge), origin);
  }
}
