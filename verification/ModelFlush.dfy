/** Who is written by a whole flush, and what one restore makes of the model, read off states and logs. */
module ModelFlush {
  import opened Basics
  import opened ModelSync
  import opened ModelLifecycles

  // ---- one flush

  /** The registrations a flush writes to: not disposed, with a write, and not the one the change came from. */
  ghost predicate AreTakers(s: State, d: Delivery, takers: seq<nat>) {
    && Ascending(takers)
    && forall t: nat :: t in takers <==>
         && t in d.rest && t < |s.records|
         && !s.records[t].disposed && s.records[t].hasWrite && d.change.origin != Some(Sync(t))
  }

  /** The reaction of the k-th write; by default it succeeds. */
  function ReactionAt(reactions: seq<Reaction>, k: nat): Reaction {
    if k < |reactions| then reactions[k] else Reaction(true, false, [])
  }

  /** An exception leaves the loop: thrown at once, or reported to a handler that rethrows it. */
  predicate Leaves(failure: Failure, r: Reaction) {
    !r.succeeds && (failure == Throw || (failure == Report && r.rethrows))
  }

  /** No exception has left the loop before the k-th write. */
  ghost predicate Reached(s: State, takers: seq<nat>, reactions: seq<Reaction>, k: nat)
    requires k < |takers| && forall j | 0 <= j < |takers| :: takers[j] < |s.records|
  {
    forall j | 0 <= j < k :: !Leaves(s.records[takers[j]].failure, ReactionAt(reactions, j))
  }

  ghost predicate Served(s: State, takers: seq<nat>, reactions: seq<Reaction>, k: nat)
    requires k < |takers| && forall j | 0 <= j < |takers| :: takers[j] < |s.records|
  {
    Reached(s, takers, reactions, k) && ReactionAt(reactions, k).succeeds
  }

  ghost predicate WrittenTo(s: State, s': State, w: Write) {
    exists i | |s.writes| <= i < |s'.writes| :: s'.writes[i] == w
  }

  /** The target was written the snapshot, once and for all, or is as it was. */
  ghost predicate Outcome(s: State, s': State, d: Delivery, t: nat, served: bool) {
    && t < |s.records| && |s'.records| == |s.records| && s.writes <= s'.writes
    && s'.records[t] == (if served then s.records[t].(held := d.snapshot, exchanged := true) else s.records[t])
    && (WrittenTo(s, s', Write(t, d.change, d.snapshot)) <==> served)
  }

  ghost predicate Quiet(reactions: seq<Reaction>) { forall r | r in reactions :: r.meanwhile == [] }

  /** A flush under way whose writes touch nothing else. */
  ghost predicate UnderWay(s: State, d: Delivery, takers: seq<nat>, reactions: seq<Reaction>) {
    && s.delivering == Some(d) && Quiet(reactions) && AreTakers(s, d, takers)
    && Ascending(d.rest) && (forall t | t in d.rest :: t < |s.records|)
  }

  function Behind(d: Delivery): Delivery
    requires |d.rest| > 0
  {
    d.(rest := d.rest[1..])
  }

  function Others(reactions: seq<Reaction>): seq<Reaction> { if reactions == [] then [] else reactions[1..] }

  lemma RestAscends(d: Delivery)
    requires Ascending(d.rest) && |d.rest| > 0
    ensures Ascending(Behind(d).rest) && d.rest[0] !in Behind(d).rest
    ensures forall t :: t in d.rest <==> t == d.rest[0] || t in Behind(d).rest
  {
    assert d.rest == [d.rest[0]] + d.rest[1..];
  }

  lemma TakersFirst(s: State, d: Delivery, takers: seq<nat>, reactions: seq<Reaction>)
    requires UnderWay(s, d, takers, reactions) && |d.rest| > 0
    ensures d.rest[0] in takers <==> Takes(s, d, d.rest[0])
    ensures d.rest[0] in takers ==> |takers| > 0 && takers[0] == d.rest[0]
  {
    RestAscends(d);
    assert d.rest[0] in d.rest;
    if d.rest[0] in takers {
      var i :| 0 <= i < |takers| && takers[i] == d.rest[0];
      assert takers[0] in takers && takers[0] in d.rest;
      var j :| 0 <= j < |d.rest| && d.rest[j] == takers[0];
    }
  }

  lemma SkippedOne(s: State, d: Delivery, takers: seq<nat>, reactions: seq<Reaction>)
    requires UnderWay(s, d, takers, reactions) && |d.rest| > 0 && d.rest[0] !in takers
    ensures var next := s.(delivering := Some(Behind(d)));
            Flushed(s, reactions) == Flushed(next, reactions) && UnderWay(next, Behind(d), takers, reactions)
  {
    TakersFirst(s, d, takers, reactions);
    RestAscends(d);
    FlushedSkips(s, d.rest[0], reactions);
  }

  /** The state after the first write, if no exception leaves the loop. */
  function AfterWrite(s: State, d: Delivery, succeeds: bool): State
    requires |d.rest| > 0 && d.rest[0] < |s.records|
  {
    var next, t := s.(delivering := Some(Behind(d))), d.rest[0];
    if succeeds then
      next.(records := s.records[t := s.records[t].(held := d.snapshot, exchanged := true)],
            writes := s.writes + [Write(t, d.change, d.snapshot)])
    else next
  }

  lemma TakenOne(s: State, d: Delivery, takers: seq<nat>, reactions: seq<Reaction>)
    requires UnderWay(s, d, takers, reactions) && |d.rest| > 0 && d.rest[0] in takers
    ensures |takers| > 0 && takers[0] == d.rest[0] && d.rest[0] < |s.records|
    ensures var r := ReactionAt(reactions, 0);
            Flushed(s, reactions)
            == if Leaves(s.records[d.rest[0]].failure, r) then s.(delivering := None)
               else Flushed(AfterWrite(s, d, r.succeeds), Others(reactions))
    ensures UnderWay(AfterWrite(s, d, ReactionAt(reactions, 0).succeeds), Behind(d), takers[1..], Others(reactions))
  {
    var r := ReactionAt(reactions, 0);
    TakersFirst(s, d, takers, reactions);
    RestAscends(d);
    assert r.meanwhile == [] by { if reactions != [] { assert reactions[0] in reactions; } }
    FlushedWrites(s, d.rest[0], r, reactions);
    assert Meanwhile(Step(s, Deliver(r.succeeds, r.rethrows)), []) == Step(s, Deliver(r.succeeds, r.rethrows));
    TakersBehind(s, AfterWrite(s, d, r.succeeds), d, takers);
  }

  lemma TakersBehind(s: State, s1: State, d: Delivery, takers: seq<nat>)
    requires AreTakers(s, d, takers) && Ascending(d.rest) && |d.rest| > 0 && |takers| > 0 && takers[0] == d.rest[0]
    requires |s1.records| == |s.records|
    requires forall t: nat | t < |s.records| ::
               s1.records[t].disposed == s.records[t].disposed && s1.records[t].hasWrite == s.records[t].hasWrite
    ensures AreTakers(s1, Behind(d), takers[1..])
  {
    RestAscends(d);
    assert takers == [takers[0]] + takers[1..];
    assert forall t :: t in takers <==> t == takers[0] || t in takers[1..];
    assert takers[0] !in takers[1..];
  }

  /** Everybody else is left as they are. */
  lemma {:induction false} FlushSpares(s: State, d: Delivery, takers: seq<nat>, reactions: seq<Reaction>, t: nat)
    requires UnderWay(s, d, takers, reactions) && t < |s.records| && t !in takers
    ensures Outcome(s, Flushed(s, reactions), d, t, false)
    decreases |d.rest|
  {
    if |d.rest| == 0 {
      FlushedEnds(s, reactions);
    } else if d.rest[0] !in takers {
      SkippedOne(s, d, takers, reactions);
      FlushSpares(s.(delivering := Some(Behind(d))), Behind(d), takers, reactions, t);
    } else {
      TakenOne(s, d, takers, reactions);
      var r := ReactionAt(reactions, 0);
      if !Leaves(s.records[d.rest[0]].failure, r) {
        var s1 := AfterWrite(s, d, r.succeeds);
        FlushSpares(s1, Behind(d), takers[1..], Others(reactions), t);
        OutcomeSince(s, s1, Flushed(s, reactions), d, t, false);
      }
    }
  }

  /** The first write touches nobody but the first target. */
  lemma OutcomeSince(s: State, s1: State, s': State, d: Delivery, t: nat, served: bool)
    requires |d.rest| > 0 && d.rest[0] < |s.records| && t != d.rest[0]
    requires s1 == AfterWrite(s, d, true) || s1 == AfterWrite(s, d, false)
    requires Outcome(s1, s', Behind(d), t, served)
    ensures Outcome(s, s', d, t, served)
  {
    var w := Write(t, d.change, d.snapshot);
    assert s1.writes == s'.writes[..|s1.writes|];
    assert forall i | |s.writes| <= i < |s1.writes| :: s'.writes[i] != w;
    assert WrittenTo(s, s', w) <==> WrittenTo(s1, s', w);
  }

  lemma FirstOutcome(s: State, s': State, d: Delivery, succeeds: bool)
    requires |d.rest| > 0 && d.rest[0] < |s.records|
    requires Outcome(AfterWrite(s, d, succeeds), s', Behind(d), d.rest[0], false)
    ensures Outcome(s, s', d, d.rest[0], succeeds)
  {
    var s1, w := AfterWrite(s, d, succeeds), Write(d.rest[0], d.change, d.snapshot);
    assert s1.writes <= s'.writes;
    if succeeds {
      assert s'.writes[|s.writes|] == s1.writes[|s.writes|] == w;
    } else {
      assert WrittenTo(s, s', w) <==> WrittenTo(s1, s', w);
    }
  }

  lemma ServedOnward(s: State, s1: State, takers: seq<nat>, reactions: seq<Reaction>, k: nat)
    requires 0 < k < |takers| && |s1.records| == |s.records|
    requires forall j | 0 <= j < |takers| :: takers[j] < |s.records|
    requires forall j | 0 <= j < |takers| :: s1.records[takers[j]].failure == s.records[takers[j]].failure
    requires !Leaves(s.records[takers[0]].failure, ReactionAt(reactions, 0))
    ensures Served(s1, takers[1..], Others(reactions), k - 1) <==> Served(s, takers, reactions, k)
  {
    var rest, others := takers[1..], Others(reactions);
    assert forall j: nat :: ReactionAt(others, j) == ReactionAt(reactions, j + 1);
    assert forall j | 0 <= j < |rest| :: rest[j] == takers[j + 1];
    if Reached(s1, rest, others, k - 1) {
      forall j | 0 <= j < k ensures !Leaves(s.records[takers[j]].failure, ReactionAt(reactions, j)) {
        if j > 0 { assert !Leaves(s1.records[rest[j - 1]].failure, ReactionAt(others, j - 1)); }
      }
    }
    if Reached(s, takers, reactions, k) {
      forall j | 0 <= j < k - 1 ensures !Leaves(s1.records[rest[j]].failure, ReactionAt(others, j)) {
        assert !Leaves(s.records[takers[j + 1]].failure, ReactionAt(reactions, j + 1));
      }
    }
  }

  lemma StoppedAtFirst(s: State, d: Delivery, takers: seq<nat>, reactions: seq<Reaction>, k: nat)
    requires k < |takers| && forall j | 0 <= j < |takers| :: takers[j] < |s.records|
    requires Leaves(s.records[takers[0]].failure, ReactionAt(reactions, 0))
    ensures Outcome(s, s.(delivering := None), d, takers[k], Served(s, takers, reactions, k))
  {
    if k > 0 && Reached(s, takers, reactions, k) { assert false; }
  }

  lemma FirstServed(s: State, d: Delivery, takers: seq<nat>, reactions: seq<Reaction>)
    requires UnderWay(s, d, takers, reactions) && |d.rest| > 0 && d.rest[0] in takers && d.rest[0] < |s.records|
    requires !Leaves(s.records[d.rest[0]].failure, ReactionAt(reactions, 0))
    ensures Outcome(s, Flushed(s, reactions), d, d.rest[0], ReactionAt(reactions, 0).succeeds)
  {
    TakersKnown(s, d, takers);
    TakenOne(s, d, takers, reactions);
    var r := ReactionAt(reactions, 0);
    assert takers[0] !in takers[1..];
    FlushSpares(AfterWrite(s, d, r.succeeds), Behind(d), takers[1..], Others(reactions), takers[0]);
    FirstOutcome(s, Flushed(s, reactions), d, r.succeeds);
  }

  lemma LaterServed(s: State, d: Delivery, takers: seq<nat>, reactions: seq<Reaction>, k: nat, s': State)
    requires UnderWay(s, d, takers, reactions) && 0 < k < |takers| && |d.rest| > 0 && d.rest[0] == takers[0]
    requires forall j | 0 <= j < |takers| :: takers[j] < |s.records|
    requires !Leaves(s.records[takers[0]].failure, ReactionAt(reactions, 0))
    requires var s1 := AfterWrite(s, d, ReactionAt(reactions, 0).succeeds);
             Outcome(s1, s', Behind(d), takers[k], Served(s1, takers[1..], Others(reactions), k - 1))
    ensures Outcome(s, s', d, takers[k], Served(s, takers, reactions, k))
  {
    var s1 := AfterWrite(s, d, ReactionAt(reactions, 0).succeeds);
    TakersKnown(s, d, takers);
    ServedOnward(s, s1, takers, reactions, k);
    OutcomeSince(s, s1, s', d, takers[k], Served(s, takers, reactions, k));
  }

  lemma TakersKnown(s: State, d: Delivery, takers: seq<nat>)
    requires AreTakers(s, d, takers)
    ensures forall j | 0 <= j < |takers| :: takers[j] < |s.records| && takers[j] in d.rest
    ensures forall i, j | 0 <= i < |takers| && 0 <= j < |takers| && i != j :: takers[i] != takers[j]
  {
    assert forall j | 0 <= j < |takers| :: takers[j] in takers;
  }

  /** Main result: the k-th target is written iff its write succeeds and no exception has left the loop before. */
  lemma {:induction false} FlushServes(s: State, d: Delivery, takers: seq<nat>, reactions: seq<Reaction>, k: nat)
    requires UnderWay(s, d, takers, reactions) && k < |takers|
    ensures forall j | 0 <= j < |takers| :: takers[j] < |s.records|
    ensures Outcome(s, Flushed(s, reactions), d, takers[k], Served(s, takers, reactions, k))
    decreases |d.rest|
  {
    TakersKnown(s, d, takers);
    assert |d.rest| > 0 by { assert takers[k] in d.rest; }
    if d.rest[0] !in takers {
      SkippedOne(s, d, takers, reactions);
      FlushServes(s.(delivering := Some(Behind(d))), Behind(d), takers, reactions, k);
    } else {
      TakenServes(s, d, takers, reactions, k);
    }
  }

  lemma {:induction false} TakenServes(s: State, d: Delivery, takers: seq<nat>, reactions: seq<Reaction>, k: nat)
    requires UnderWay(s, d, takers, reactions) && k < |takers| && |d.rest| > 0 && d.rest[0] in takers
    requires forall j | 0 <= j < |takers| :: takers[j] < |s.records|
    ensures Outcome(s, Flushed(s, reactions), d, takers[k], Served(s, takers, reactions, k))
    decreases |d.rest|, 0
  {
    TakersKnown(s, d, takers);
    TakenOne(s, d, takers, reactions);
    var r := ReactionAt(reactions, 0);
    var s1 := AfterWrite(s, d, r.succeeds);
    if Leaves(s.records[d.rest[0]].failure, r) {
      StoppedAtFirst(s, d, takers, reactions, k);
    } else if k == 0 {
      FirstServed(s, d, takers, reactions);
    } else {
      FlushServes(s1, Behind(d), takers[1..], Others(reactions), k - 1);
      LaterServed(s, d, takers, reactions, k, Flushed(s1, Others(reactions)));
    }
  }

  /** Every flush has such a list of targets. */
  lemma {:induction false} SomeTakers(s: State, d: Delivery) returns (takers: seq<nat>)
    requires Ascending(d.rest)
    ensures AreTakers(s, d, takers)
    decreases |d.rest|
  {
    if |d.rest| == 0 {
      takers := [];
    } else {
      RestAscends(d);
      var t := d.rest[0];
      var rest := SomeTakers(s, Behind(d));
      if t < |s.records| && Takes(s, d, t) {
        takers := [t] + rest;
        forall i, j | 0 <= i < j < |takers| ensures takers[i] < takers[j] {
          if i == 0 { assert rest[j - 1] in rest && rest[j - 1] in d.rest[1..]; }
        }
        assert forall x :: x in takers <==> x == t || x in rest;
      } else {
        takers := rest;
      }
    }
  }

  // ---- what a restore makes of the model

  /** A key counts as changed if its slot goes, comes, or is given something not identical. */
  predicate Touched(was: Model, now: Model, put: Model, key: Key) {
    || (key in was && key !in now)
    || (key in put && !(key in was && Identical(was[key], put[key])))
  }

  /** What becomes of a model or of what a target holds. */
  ghost predicate Becomes(was: Model, now: Model, incoming: Model, mode: Mode) {
    && (forall k :: k in now <==> k in incoming || (mode == Merge && k in was))
    && (forall k | k in now :: now[k] == if k in incoming then incoming[k] else was[k])
  }

  lemma AfterMeaning(m: Model, incoming: Model, mode: Mode)
    ensures Becomes(m, After(m, incoming, mode), incoming, mode)
    ensures forall k :: k in Changed(m, incoming, mode) <==> Touched(m, After(m, incoming, mode), incoming, k)
  {
  }

  lemma RecordedMeaning(s: State, keys: set<Key>, origin: Option<Origin>)
    requires FlushQueued(s)
    ensures var s' := Recorded(s, keys, origin);
            && s'.pending == s.pending + keys && s'.queued == (if s'.pending == {} then 0 else 1)
            && s'.pendingOrigin
               == (if keys == {} || s.pendingOrigin.Some? then s.pendingOrigin else origin)
            && s'.model == s.model && s'.version == s.version && s'.records == s.records && s'.writes == s.writes
  {
    assert s.pending + {} == s.pending;
  }

  /**
   * Replacing leaves exactly the incoming slots, merging keeps the others too; what is touched, and nothing else,
   * becomes pending, under the origin that came first, and one flush is queued if anything is pending.
   */
  lemma RestoreMeaning(s: State, incoming: Model, mode: Mode, origin: Option<Origin>)
    requires FlushQueued(s)
    ensures var s' := Step(s, Restore(incoming, mode, origin));
            Becomes(s.model, s'.model, incoming, mode)
    ensures var s' := Step(s, Restore(incoming, mode, origin));
            && (forall k :: k in s'.pending <==> k in s.pending || Touched(s.model, s'.model, incoming, k))
            && s'.queued == (if s'.pending == {} then 0 else 1)
            && (s.pendingOrigin.Some? || s'.pending == {} ==> s'.pendingOrigin == s.pendingOrigin)
            && (s.pending == {} && s'.pending != {} ==> s'.pendingOrigin == origin)
            && s'.version == s.version && s'.records == s.records && s'.writes == s.writes
  {
    AfterMeaning(s.model, incoming, mode);
    RecordedMeaning(s.(model := After(s.model, incoming, mode)), Changed(s.model, incoming, mode), origin);
  }

  /** A state that a live target sends is restored, under the target's own origin unless it names another. */
  lemma ReceiveMeaning(s: State, from: nat, incoming: Model, mode: Mode, origin: Option<Origin>)
    requires FlushQueued(s) && from < |s.records| && !s.records[from].disposed
    ensures var s' := Step(s, Receive(from, incoming, mode, origin));
            && Becomes(s.model, s'.model, incoming, mode)
            && (forall k :: k in s'.pending <==> k in s.pending || Touched(s.model, s'.model, incoming, k))
            && (s.pendingOrigin.Some? ==> s'.pendingOrigin == s.pendingOrigin)
            && (s.pending == {} && s'.pending != {} ==>
                s'.pendingOrigin == if origin.Some? then origin else Some(Sync(from)))
  {
    var t := s.(model := After(s.model, incoming, mode),
        records := Step(s, Receive(from, incoming, mode, origin)).records);
    AfterMeaning(s.model, incoming, mode);
    RecordedMeaning(t, Changed(s.model, incoming, mode), if origin.Some? then origin else Some(Sync(from)));
  }

  /** The sender holds what it sent, and nobody else is touched; what a disposed target sends is dropped. */
  lemma SenderHolds(s: State, from: nat, incoming: Model, mode: Mode, origin: Option<Origin>)
    ensures var s' := Step(s, Receive(from, incoming, mode, origin));
            if from >= |s.records| || s.records[from].disposed then s' == s
            else
              && |s'.records| == |s.records| && s'.records[from].exchanged
              && Becomes(s.records[from].held, s'.records[from].held, incoming, mode)
              && forall n | 0 <= n < |s.records| && n != from :: s'.records[n] == s.records[n]
  {
    if from < |s.records| && !s.records[from].disposed { AfterMeaning(s.records[from].held, incoming, mode); }
  }

  lemma SetMeaning(s: State, key: Key, value: Value)
    requires FlushQueued(s)
    ensures var s' := Step(s, Set(key, value));
            && s'.model == s.model[key := value]
            && s'.pending == s.pending + (if key in s.model && Identical(s.model[key], value) then {} else {key})
            && s'.queued == (if s'.pending == {} then 0 else 1)
  {
    SetIsApplied(s, key, value);
  }

  lemma DeleteMeaning(s: State, key: Key)
    requires FlushQueued(s)
    ensures var s' := Step(s, Delete(key));
            && s'.model == s.model - {key}
            && s'.pending == s.pending + (if key in s.model then {key} else {})
            && s'.queued == (if s'.pending == {} then 0 else 1)
  {
  }
}
