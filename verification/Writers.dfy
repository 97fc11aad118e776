/** Concurrent writers on one table of the primary (engine/src/engine.cc, engine/src/stats/stats_manager.cc).
    A writer appends its operation to the log, applies it to the store, and, if that succeeded, counts it;
    each of these steps is atomic and they interleave freely under the shared lock. `Cleanup` holds the
    unique lock, so it runs only when no writer is in between. */
module Writers {
  import opened Ranking
  import opened StoredRecords
  import opened LogEntries
  import opened Replay
  import opened StatsManagers

  /** `logged` are the log positions appended but not yet applied. The other three count writers that have
      changed the store but not yet finished counting it. */
  datatype State = State(
    store: Records,
    log: seq<Op>,
    logged: set<nat>,
    inserted: nat,
    removed: nat,
    halfCounted: nat,
    stats: Stats)

  const FRESH := State(map[], [], {}, 0, 0, 0, Stats(0, 0, 0))

  /** No writer holds the shared lock. */
  predicate Quiet(s: State) {
    s.logged == {} && s.inserted == 0 && s.removed == 0 && s.halfCounted == 0
  }

  datatype Step =
    | Append(op: Op)
    | Apply(at: nat)
    | CountInsert
    | CountDeleted
    | CountStale
    | Cleanup

  /** An insertion that can succeed in a table of this dimension. */
  predicate Fitting(dim: nat, e: Op) {
    e.Insert? && |e.vector| == dim
  }

  /** Two operations that must not overlap: on one id, an insertion that can succeed and a removal, or two
      such insertions of different records. */
  predicate Clash(dim: nat, a: Op, b: Op) {
    && IsWrite(a) && IsWrite(b) && a.id == b.id && a != b
    && (Fitting(dim, a) || a.Remove?) && (Fitting(dim, b) || b.Remove?)
  }

  /** The assumption on clients: operations that overlap in time do not clash. */
  predicate Harmless(dim: nat, s: State, e: Op) {
    forall i :: i in s.logged && i < |s.log| ==> !Clash(dim, s.log[i], e)
  }

  predicate Enabled(s: State, step: Step) {
    match step
    case Append(e) => IsWrite(e)
    case Apply(i) => i in s.logged && i < |s.log|
    case CountInsert => s.inserted > 0
    case CountDeleted => s.removed > 0
    case CountStale => s.halfCounted > 0
    case Cleanup => Quiet(s)
  }

  function Applied(dim: nat, s: State, i: nat): State
    requires i < |s.log|
  {
    var e := s.log[i];
    var ok := Succeeds(dim, s.store, e);
    s.(store := Replay.Step(dim, s.store, e),
       logged := s.logged - {i},
       inserted := if ok && e.Insert? then s.inserted + 1 else s.inserted,
       removed := if ok && e.Remove? then s.removed + 1 else s.removed)
  }

  function Next(dim: nat, threshold: real, s: State, step: Step): State
    requires Enabled(s, step)
  {
    match step
    case Append(e) => s.(log := s.log + [e], logged := s.logged + {|s.log|})
    case Apply(i) => Applied(dim, s, i)
    case CountInsert => s.(inserted := s.inserted - 1, stats := s.stats.(vectors := s.stats.vectors + 1))
    case CountDeleted =>
      s.(removed := s.removed - 1, halfCounted := s.halfCounted + 1, stats := s.stats.(deleted := s.stats.deleted + 1))
    case CountStale => s.(halfCounted := s.halfCounted - 1, stats := s.stats.(stale := s.stats.stale + 1))
    case Cleanup => s.(stats := Cleaned(s.stats, threshold))
  }

  // ----- counters

  /** No assumption on ids is needed for the counters. */
  ghost predicate CountersOk(s: State) {
    && (forall i :: i in s.logged ==> i < |s.log|)
    && s.stats.vectors + s.inserted == |s.store| + s.stats.deleted + s.removed
    && s.stats.deleted <= s.stats.stale + s.halfCounted
  }

  lemma NextCounters(dim: nat, threshold: real, s: State, step: Step)
    requires CountersOk(s) && Enabled(s, step)
    ensures CountersOk(Next(dim, threshold, s, step))
  {
    if step.Apply? {
      StepSize(dim, s.store, s.log[step.at]);
    }
  }

  predicate Follows(dim: nat, threshold: real, states: seq<State>, steps: seq<Step>, i: nat)
    requires i < |steps| && |states| == |steps| + 1
  {
    Enabled(states[i], steps[i]) && states[i + 1] == Next(dim, threshold, states[i], steps[i])
  }

  ghost predicate Run(dim: nat, threshold: real, states: seq<State>, steps: seq<Step>) {
    && |states| == |steps| + 1 && states[0] == FRESH
    && forall i :: 0 <= i < |steps| ==> Follows(dim, threshold, states, steps, i)
  }

  lemma {:induction false} RunCounters(dim: nat, threshold: real, states: seq<State>, steps: seq<Step>, i: nat)
    requires Run(dim, threshold, states, steps) && i < |states|
    ensures CountersOk(states[i])
  {
    if i == 0 {
    } else {
      RunCounters(dim, threshold, states, steps, i - 1);
      assert Follows(dim, threshold, states, steps, i - 1);
      NextCounters(dim, threshold, states[i - 1], steps[i - 1]);
    }
  }

  /** Whenever the unique lock is held, whatever the interleaving before: the counters give the size of the
      store, and neither the ratio nor the adjustment wraps below zero. */
  lemma QuietCounters(dim: nat, threshold: real, states: seq<State>, steps: seq<Step>, i: nat)
    requires Run(dim, threshold, states, steps) && i < |states| && Quiet(states[i])
    ensures var s := states[i];
      && s.stats.deleted <= s.stats.vectors && s.stats.deleted <= s.stats.stale
      && Sub64(s.stats.vectors, s.stats.deleted) == s.stats.vectors - s.stats.deleted == |s.store|
      && Sub64(s.stats.vectors + s.stats.stale, s.stats.deleted) == |s.store| + s.stats.stale
  {
    RunCounters(dim, threshold, states, steps, i);
  }

  /** After every cleanup the stale vectors are at most the threshold's share of live and stale ones; and they are
      still counted exactly if they were so before. */
  lemma CleanupBoundsStale(dim: nat, threshold: real, states: seq<State>, steps: seq<Step>, i: nat)
    requires Run(dim, threshold, states, steps) && i < |steps| && steps[i] == Cleanup && threshold >= 0.0
    ensures var s, t := states[i], states[i + 1];
      && t.stats.stale as real <= threshold * (|t.store| + t.stats.stale) as real
      && t.stats.vectors == |t.store| && t.stats.deleted == 0
      && t.stats.stale ==
           (if s.stats.stale as real <= threshold * (|s.store| + s.stats.stale) as real then s.stats.stale else 0)
  {
    assert Follows(dim, threshold, states, steps, i);
    QuietCounters(dim, threshold, states, steps, i);
    CleanedMeaning(states[i].stats, threshold, |states[i].store|);
  }

  /** The counters after startup: a replay counts its operations, then the vector count is set to the size
      of the store. */
  function CountReplay(dim: nat, store: Records, log: seq<Op>, stats: Stats): Stats
    decreases |log|
  {
    if log == [] then stats
    else
      var ok := Succeeds(dim, store, log[0]);
      CountReplay(dim, Replay.Step(dim, store, log[0]), log[1..],
        if ok && log[0].Insert? then stats.(vectors := stats.vectors + 1)
        else if ok && log[0].Remove? then stats.(deleted := stats.deleted + 1, stale := stats.stale + 1)
        else stats)
  }

  function RemovalsIn(dim: nat, store: Records, log: seq<Op>): nat
    decreases |log|
  {
    if log == [] then 0
    else
      RemovalsIn(dim, Replay.Step(dim, store, log[0]), log[1..]) +
      if log[0].Remove? && Succeeds(dim, store, log[0]) then 1 else 0
  }

  function Restarted(dim: nat, snapshot: Records, log: seq<Op>): Stats {
    CountReplay(dim, snapshot, log, Stats(0, 0, 0)).(vectors := Widen(Narrow(|Play(dim, snapshot, log)|)))
  }

  lemma {:induction false} CountReplayRemovals(dim: nat, store: Records, log: seq<Op>, stats: Stats)
    ensures var r := CountReplay(dim, store, log, stats);
      && r.deleted == stats.deleted + RemovalsIn(dim, store, log)
      && r.stale == stats.stale + RemovalsIn(dim, store, log)
    decreases |log|
  {
    if log == [] {
    } else {
      var ok := Succeeds(dim, store, log[0]);
      CountReplayRemovals(dim, Replay.Step(dim, store, log[0]), log[1..],
        if ok && log[0].Insert? then stats.(vectors := stats.vectors + 1)
        else if ok && log[0].Remove? then stats.(deleted := stats.deleted + 1, stale := stats.stale + 1)
        else stats);
    }
  }

  /** After a restart the counters describe the store exactly when the replayed log removed nothing, and
      the next cleanup takes the vector count below zero, so that it wraps, exactly when the replay removed
      more vectors than are left. */
  lemma RestartCounters(dim: nat, snapshot: Records, log: seq<Op>)
    requires |Play(dim, snapshot, log)| < INT
    ensures var stats := Restarted(dim, snapshot, log);
      && (stats.vectors - stats.deleted == |Play(dim, snapshot, log)| <==> RemovalsIn(dim, snapshot, log) == 0)
      && (Sub64(stats.vectors, stats.deleted) != stats.vectors - stats.deleted <==>
            RemovalsIn(dim, snapshot, log) > |Play(dim, snapshot, log)|)
  {
    CountReplayRemovals(dim, snapshot, log, Stats(0, 0, 0));
  }

  /** A log that does it: one vector inserted and removed again. No vector is left and one counts as deleted,
      so the next cleanup leaves the largest count there is. */
  lemma RestartWraps(config: TableConfig<real>, id: Id, vector: Ranking.Vector, content: string, threshold: real)
    ensures var stats := Restarted(|vector|, map[], [Create(config), Entry.Insert(id, vector, content), Entry.Remove(id)]);
      stats == Stats(0, 1, 1) && Cleaned(stats, threshold).vectors == WORD - 1
  {
    var dim := |vector|;
    var log: seq<Op> := [Create(config), Entry.Insert(id, vector, content), Entry.Remove(id)];
    var record := map[id := Data(id, vector, content)];
    assert log[1..] == [log[1], log[2]] && log[1..][1..] == [log[2]] && [log[2]][1..] == [];
    assert Replay.Step(dim, map[], log[0]) == map[] && Replay.Step(dim, map[], log[1]) == record;
    assert Replay.Step(dim, record, log[2]) == map[];
    PlayOne(dim, record, log[2]);
    assert Play(dim, record, [log[2]]) == map[];
    assert Play(dim, map[], log[1..]) == map[] && Play(dim, map[], log) == map[];
    var start := Stats(0, 0, 0);
    var one := Stats(1, 0, 0);
    assert CountReplay(dim, record, [log[2]], one) == CountReplay(dim, map[], [], Stats(1, 1, 1)) == Stats(1, 1, 1);
    assert CountReplay(dim, map[], log, start) == CountReplay(dim, map[], log[1..], start) ==
      CountReplay(dim, record, [log[2]], one);
  }

  // ----- log and memory

  /** The log without the operations still to be applied. */
  function Without(log: seq<Op>, pending: set<nat>): seq<Op> {
    if log == [] then []
    else
      var n := |log| - 1;
      Without(log[..n], pending) + if n in pending then [] else [log[n]]
  }

  /** Operations after a pending one do not clash with it. */
  ghost predicate PendingHarmless(dim: nat, log: seq<Op>, pending: set<nat>) {
    forall i, j :: i in pending && i < j < |log| ==> !Clash(dim, log[i], log[j])
  }

  ghost predicate LogOk(dim: nat, s: State) {
    && (forall i :: i in s.logged ==> i < |s.log|)
    && (forall i :: 0 <= i < |s.log| ==> IsWrite(s.log[i]))
    && PendingHarmless(dim, s.log, s.logged)
    && s.store == Play(dim, map[], Without(s.log, s.logged))
  }

  /** Two writes commute on every store exactly when they do not clash. */
  lemma WritesCommute(dim: nat, a: Op, b: Op)
    requires IsWrite(a) && IsWrite(b)
    ensures !Clash(dim, a, b) <==> forall store ::
      Replay.Step(dim, Replay.Step(dim, store, a), b) == Replay.Step(dim, Replay.Step(dim, store, b), a)
  {
    if Clash(dim, a, b) {
      ClashDiffers(dim, a, b);
    } else {
      forall store
        ensures Replay.Step(dim, Replay.Step(dim, store, a), b) == Replay.Step(dim, Replay.Step(dim, store, b), a)
      {
        StepsCommute(dim, store, a, b);
      }
    }
  }

  lemma StepsCommute(dim: nat, store: Records, a: Op, b: Op)
    requires IsWrite(a) && IsWrite(b) && !Clash(dim, a, b)
    ensures Replay.Step(dim, Replay.Step(dim, store, a), b) == Replay.Step(dim, Replay.Step(dim, store, b), a)
  {
    var ab := Replay.Step(dim, Replay.Step(dim, store, a), b);
    var ba := Replay.Step(dim, Replay.Step(dim, store, b), a);
    forall id
      ensures At(ab, id) == At(ba, id)
    {
      var o := At(store, id);
      StepAtOk(dim, store, id, a);
      StepAtOk(dim, store, id, b);
      StepAtOk(dim, Replay.Step(dim, store, a), id, b);
      StepAtOk(dim, Replay.Step(dim, store, b), id, a);
      assert StepAt(dim, StepAt(dim, o, id, a), id, b) == StepAt(dim, StepAt(dim, o, id, b), id, a);
    }
    SameEverywhere(ab, ba);
  }

  lemma StepAtOk(dim: nat, store: Records, id: Id, e: Op)
    ensures At(Replay.Step(dim, store, e), id) == StepAt(dim, At(store, id), id, e)
  {}

  /** On the empty store a clashing pair leaves different records in the two orders. */
  lemma ClashDiffers(dim: nat, a: Op, b: Op)
    requires Clash(dim, a, b)
    ensures Replay.Step(dim, Replay.Step(dim, map[], a), b) != Replay.Step(dim, Replay.Step(dim, map[], b), a)
  {
    var o: Option<Data> := None;
    StepAtOk(dim, map[], a.id, a);
    StepAtOk(dim, map[], a.id, b);
    StepAtOk(dim, Replay.Step(dim, map[], a), a.id, b);
    StepAtOk(dim, Replay.Step(dim, map[], b), a.id, a);
    assert StepAt(dim, StepAt(dim, o, a.id, a), a.id, b) != StepAt(dim, StepAt(dim, o, a.id, b), a.id, a);
  }

  lemma {:induction false} WithoutSame(log: seq<Op>, p: set<nat>, q: set<nat>)
    requires forall i :: 0 <= i < |log| ==> (i in p <==> i in q)
    ensures Without(log, p) == Without(log, q)
  {
    if log == [] {
    } else {
      WithoutSame(log[..|log| - 1], p, q);
    }
  }

  /** Applying a pending operation now is the same as having applied it at its place in the log. */
  lemma {:induction false} ApplyLate(dim: nat, log: seq<Op>, pending: set<nat>, i: nat)
    requires i in pending && i < |log|
    requires forall j :: 0 <= j < |log| ==> IsWrite(log[j])
    requires PendingHarmless(dim, log, pending)
    ensures Replay.Step(dim, Play(dim, map[], Without(log, pending)), log[i]) ==
      Play(dim, map[], Without(log, pending - {i}))
    decreases |log|
  {
    var n := |log| - 1;
    var front := log[..n];
    var before := Play(dim, map[], Without(front, pending));
    if i == n {
      WithoutSame(front, pending, pending - {i});
      PlayConcat(dim, map[], Without(front, pending), [log[n]]);
      PlayOne(dim, before, log[n]);
      assert Without(front, pending) + [] == Without(front, pending);
    } else {
      ApplyLate(dim, front, pending, i);
      if n in pending {
        assert Without(front, pending) + [] == Without(front, pending);
        assert Without(front, pending - {i}) + [] == Without(front, pending - {i});
      } else {
        PlayConcat(dim, map[], Without(front, pending), [log[n]]);
        PlayConcat(dim, map[], Without(front, pending - {i}), [log[n]]);
        PlayOne(dim, before, log[n]);
        PlayOne(dim, Play(dim, map[], Without(front, pending - {i})), log[n]);
        StepsCommute(dim, before, log[n], log[i]);
      }
    }
  }

  lemma NextLog(dim: nat, threshold: real, s: State, step: Step)
    requires LogOk(dim, s) && Enabled(s, step)
    requires step.Append? ==> Harmless(dim, s, step.op)
    ensures LogOk(dim, Next(dim, threshold, s, step))
  {
    match step
    case Append(e) =>
      var log := s.log + [e];
      assert log[..|s.log|] == s.log;
      WithoutSame(s.log, s.logged, s.logged + {|s.log|});
      assert Without(s.log, s.logged) + [] == Without(s.log, s.logged);
    case Apply(i) =>
      ApplyLate(dim, s.log, s.logged, i);
    case _ =>
  }

  lemma {:induction false} RunLog(dim: nat, threshold: real, states: seq<State>, steps: seq<Step>, i: nat)
    requires Run(dim, threshold, states, steps) && i < |states|
    requires forall j :: 0 <= j < |steps| && steps[j].Append? ==> Harmless(dim, states[j], steps[j].op)
    ensures LogOk(dim, states[i])
  {
    if i == 0 {
    } else {
      RunLog(dim, threshold, states, steps, i - 1);
      assert Follows(dim, threshold, states, steps, i - 1);
      NextLog(dim, threshold, states[i - 1], steps[i - 1]);
    }
  }

  lemma {:induction false} WithoutNothing(log: seq<Op>)
    ensures Without(log, {}) == log
  {
    if log == [] {
    } else {
      WithoutNothing(log[..|log| - 1]);
    }
  }

  /** If overlapping operations do not clash, then whenever none is in flight the store is the replay of the
      log, for every interleaving. */
  lemma LogAndMemoryAgree(dim: nat, threshold: real, states: seq<State>, steps: seq<Step>, i: nat)
    requires Run(dim, threshold, states, steps) && i < |states| && states[i].logged == {}
    requires forall j :: 0 <= j < |steps| && steps[j].Append? ==> Harmless(dim, states[j], steps[j].op)
    ensures states[i].store == Play(dim, map[], states[i].log)
  {
    RunLog(dim, threshold, states, steps, i);
    WithoutNothing(states[i].log);
  }

  /** Two operations in this order in the log, none in flight, and yet the store is not the replay. */
  ghost predicate Disagrees(dim: nat, threshold: real, a: Op, b: Op, states: seq<State>, steps: seq<Step>) {
    && Run(dim, threshold, states, steps)
    && var s := states[|steps|]; s.log == [a, b] && s.logged == {} && s.store != Play(dim, map[], s.log)
  }

  /** The assumption is exact: two writers can make store and log disagree if and only if their operations
      clash. */
  lemma OverlapDisagreesIffClash(dim: nat, threshold: real, a: Op, b: Op)
    requires IsWrite(a) && IsWrite(b)
    ensures Clash(dim, a, b) <==> exists states, steps :: Disagrees(dim, threshold, a, b, states, steps)
  {
    if Clash(dim, a, b) {
      ClashDisagrees(dim, threshold, a, b);
    } else {
      forall states: seq<State>, steps: seq<Step>
        ensures !Disagrees(dim, threshold, a, b, states, steps)
      {
        if Run(dim, threshold, states, steps) && states[|steps|].log == [a, b] && states[|steps|].logged == {} {
          HarmlessPair(dim, threshold, a, b, states, steps);
          LogAndMemoryAgree(dim, threshold, states, steps, |steps|);
        }
      }
    }
  }

  /** Applied in the other order than logged, a clashing pair disagrees. */
  lemma ClashDisagrees(dim: nat, threshold: real, a: Op, b: Op)
    requires Clash(dim, a, b)
    ensures exists states, steps :: Disagrees(dim, threshold, a, b, states, steps)
  {
    var steps := [Append(a), Append(b), Apply(1), Apply(0)];
    var s1 := Next(dim, threshold, FRESH, steps[0]);
    var s2 := Next(dim, threshold, s1, steps[1]);
    assert s2.log == [a, b] && s2.logged == {0, 1};
    var s3 := Next(dim, threshold, s2, steps[2]);
    assert s3.store == Replay.Step(dim, map[], b) && s3.log == [a, b] && s3.logged == {0};
    var s4 := Next(dim, threshold, s3, steps[3]);
    assert s4.store == Replay.Step(dim, Replay.Step(dim, map[], b), a) && s4.log == [a, b] && s4.logged == {};
    assert [a, b][1..] == [b];
    PlayOne(dim, Replay.Step(dim, map[], a), b);
    ClashDiffers(dim, a, b);
    assert Disagrees(dim, threshold, a, b, [FRESH, s1, s2, s3, s4], steps);
  }

  /** The log only grows. */
  lemma {:induction false} LogGrows(dim: nat, threshold: real, states: seq<State>, steps: seq<Step>, i: nat, j: nat)
    requires Run(dim, threshold, states, steps) && i <= j < |states|
    ensures states[i].log <= states[j].log
    decreases j
  {
    if i == j {
    } else {
      LogGrows(dim, threshold, states, steps, i, j - 1);
      assert Follows(dim, threshold, states, steps, j - 1);
    }
  }

  lemma HarmlessPair(dim: nat, threshold: real, a: Op, b: Op, states: seq<State>, steps: seq<Step>)
    requires Run(dim, threshold, states, steps) && states[|steps|].log == [a, b] && !Clash(dim, a, b)
    ensures forall j :: 0 <= j < |steps| && steps[j].Append? ==> Harmless(dim, states[j], steps[j].op)
  {
    forall j | 0 <= j < |steps| && steps[j].Append?
      ensures Harmless(dim, states[j], steps[j].op)
    {
      assert Follows(dim, threshold, states, steps, j);
      assert states[j + 1].log == states[j].log + [steps[j].op];
      LogGrows(dim, threshold, states, steps, j + 1, |steps|);
      assert states[j + 1].log[|states[j].log|] == [a, b][|states[j].log|];
      forall i | i in states[j].logged && i < |states[j].log|
        ensures !Clash(dim, states[j].log[i], steps[j].op)
      {
        assert states[j + 1].log[i] == [a, b][i];
      }
    }
  }
}
