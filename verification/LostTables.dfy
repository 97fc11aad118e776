/** Tables lost in a crash before their first shutdown and created anew over the log that they left behind
    (engine/src/engine.cc). */
module LostTables {
  import opened Ranking
  import opened LogEntries
  import opened WalText
  import opened WalRoundTrip
  import opened StoredRecords
  import opened Replay
  import opened LogReadings
  import opened Recovery
  import opened Restarts

  /** Until its metadata is saved, the log alone describes the table. */
  predicate LogIsAll(dim: nat, s: State) {
    && (s.phase == Described || s.phase == Cleared ==> s.metadata) && (s.phase == Missing ==> !s.metadata)
    && (!s.metadata ==> Play(dim, map[], s.logged) == Truth(dim, s))
  }

  lemma OneMoreLogged(dim: nat, log: seq<Op>, e: Op)
    ensures Play(dim, map[], log + [e]) == Replay.Step(dim, Play(dim, map[], log), e)
  {
    PlayConcat(dim, map[], log, [e]);
    PlayOne(dim, Play(dim, map[], log), e);
  }

  lemma NextLogIsAll(f: Format, dim: nat, s: State, step: Recovery.Step)
    requires LogIsAll(dim, s) && Enabled(f, s, step) && Careful(dim, s, step)
    ensures LogIsAll(dim, Next(f, dim, s, step))
  {
    match step
    case Append(e) =>
      OneMoreLogged(dim, s.logged, e);
      OneMoreLogged(dim, s.history, e);
    case Recreate(create) => OneMoreLogged(dim, s.logged, create);
    case _ =>
  }

  lemma {:induction false} RunLogIsAll(f: Format, dim: nat, states: seq<State>, steps: seq<Recovery.Step>, i: nat)
    requires Run(f, dim, states, steps) && PrintableRun(f, dim, states, steps) && i < |states|
    ensures LogIsAll(dim, states[i])
  {
    if i == 0 {
      assert states[0].logged == [] + [states[0].logged[0]];
      OneMoreLogged(dim, [], states[0].logged[0]);
    } else {
      RunLogIsAll(f, dim, states, steps, i - 1);
      var s, step, _ := PrintableStep(f, dim, states, steps, i - 1);
      NextLogIsAll(f, dim, s, step);
    }
  }

  // ----- runs that go on with a new table

  /** The run goes on with a new table in place of the lost one, and is sensible from then on. */
  ghost predicate Anew(f: Format, dim: nat, states: seq<State>, steps: seq<Recovery.Step>, create: Op,
      states': seq<State>, steps': seq<Recovery.Step>)
  {
    && Run(f, dim, states', steps') && |states| == |steps| + 1
    && states <= states' && steps + [Recreate(create)] <= steps'
    && forall i :: |steps| < i < |steps'| ==> Sensible(f, dim, states', steps', i)
  }

  /** The table is what the operations on it describe, the lost one's left aside. */
  ghost predicate Accurate(f: Format, dim: nat, s: State) {
    Up(s.phase) && s.pending == Nothing ==> Close(f.codec, s.store, Truth(dim, s))
  }

  lemma AnewPrintable(f: Format, dim: nat, states: seq<State>, steps: seq<Recovery.Step>, create: Op,
      states': seq<State>, steps': seq<Recovery.Step>)
    requires Run(f, dim, states, steps) && PrintableRun(f, dim, states, steps) && Printable(f.codec, create)
    requires Anew(f, dim, states, steps, create, states', steps') && Truth(dim, states[|steps|]) == map[]
    ensures PrintableRun(f, dim, states', steps')
  {
    forall i | 0 <= i < |steps'|
      ensures Sensible(f, dim, states', steps', i)
    {
      if i < |steps| {
        assert Sensible(f, dim, states, steps, i);
        assert (steps + [Recreate(create)])[i] == steps[i];
      } else if i == |steps| {
        assert (steps + [Recreate(create)])[i] == Recreate(create);
      }
    }
  }

  /** A run that ends in this state, made one step longer. */
  lemma OneMore(f: Format, dim: nat, states: seq<State>, steps: seq<Recovery.Step>, s: State, step: Recovery.Step)
      returns (states': seq<State>, steps': seq<Recovery.Step>)
    requires Run(f, dim, states, steps) && states[|steps|] == s && Enabled(f, s, step)
    ensures states' == states + [Next(f, dim, s, step)] && steps' == steps + [step]
    ensures Run(f, dim, states', steps') && states'[|steps'|] == Next(f, dim, s, step)
  {
    states', steps' := states + [Next(f, dim, s, step)], steps + [step];
    forall i | 0 <= i < |steps'|
      ensures Follows(f, dim, states', steps', i)
    {
      assert i < |steps| ==> Follows(f, dim, states, steps, i);
    }
  }

  /** The same for a run that goes on with a new table. */
  lemma OneMoreAnew(f: Format, dim: nat, states: seq<State>, steps: seq<Recovery.Step>, create: Op,
      states1: seq<State>, steps1: seq<Recovery.Step>, s: State, step: Recovery.Step)
      returns (states': seq<State>, steps': seq<Recovery.Step>)
    requires Anew(f, dim, states, steps, create, states1, steps1) && states1[|steps1|] == s
    requires Enabled(f, s, step) && StepPrintable(f.codec, step) && !step.Recreate?
    ensures Anew(f, dim, states, steps, create, states', steps') && states'[|steps'|] == Next(f, dim, s, step)
  {
    states', steps' := OneMore(f, dim, states1, steps1, s, step);
    forall i | |steps| < i < |steps'|
      ensures Sensible(f, dim, states', steps', i)
    {
      assert i < |steps1| ==> Sensible(f, dim, states1, steps1, i);
    }
  }

  /** Created anew, then shut down as far as the metadata, and cut short by a crash. */
  lemma CutShort(f: Format, dim: nat, states: seq<State>, steps: seq<Recovery.Step>, create: Op)
      returns (states': seq<State>, steps': seq<Recovery.Step>)
    requires Run(f, dim, states, steps) && create.Create? && InRange(f.hnsw, create)
    requires var s := states[|steps|]; s.phase == Missing && s.pending == Nothing
    ensures Anew(f, dim, states, steps, create, states', steps')
    ensures states'[|steps'|] == Logging(f, states[|steps|], create).(phase := Down, store := map[],
      snapshot := map[], saved := map[], metadata := true, history := [])
  {
    var s := states[|steps|];
    states', steps' := OneMore(f, dim, states, steps, s, Recreate(create));
    s := Logging(f, s, create).(phase := Running, store := map[], history := []);
    states', steps' := OneMoreAnew(f, dim, states, steps, create, states', steps', s, BeginShutdown);
    s := s.(phase := Stopping);
    states', steps' := OneMoreAnew(f, dim, states, steps, create, states', steps', s, SaveSnapshot);
    s := s.(phase := Saved, snapshot := map[], saved := map[]);
    states', steps' := OneMoreAnew(f, dim, states, steps, create, states', steps', s, SaveMetadata);
    s := s.(phase := Recovery.Described, metadata := true);
    states', steps' := OneMoreAnew(f, dim, states, steps, create, states', steps', s, Crash);
  }

  /** Nothing has been done to a new table, and it holds the records of the lost one. */
  ghost predicate Returned(f: Format, s: State, lost: Records) {
    s.phase == Running && s.pending == Nothing && s.history == [] && Close(f.codec, s.store, lost)
  }

  /** Whenever a table is lost, its records can return: it is created anew and crashes at its first shutdown, after
      the metadata and before the log is cleared. */
  lemma OldRecordsReturn(f: Format, dim: nat, states: seq<State>, steps: seq<Recovery.Step>, create: Op)
      returns (states': seq<State>, steps': seq<Recovery.Step>)
    requires CodecOk(f.codec) && Run(f, dim, states, steps) && PrintableRun(f, dim, states, steps)
    requires create.Create? && InRange(f.hnsw, create) && Printable(f.codec, create)
    requires states[|steps|].phase == Missing
    ensures Anew(f, dim, states, steps, create, states', steps')
    ensures Returned(f, states'[|steps'|], Truth(dim, states[|steps|]))
  {
    var s := states[|steps|];
    RunInv(f, dim, states, steps, |steps|);
    RunLogIsAll(f, dim, states, steps, |steps|);
    LoggingOk(f, s, create);
    OneMoreLogged(dim, s.logged, create);
    states', steps' := CutShort(f, dim, states, steps, create);
    var t := states'[|steps'|];
    RestoredClose(f, dim, t, map[], create);
    states', steps' := OneMoreAnew(f, dim, states, steps, create, states', steps', t, Startup(create));
  }

  /** A table created anew over the log of a lost one stays what was done to it, in every run that goes on from
      there, if and only if the lost one held nothing. */
  lemma RecreationSafeIffEmpty(f: Format, dim: nat, states: seq<State>, steps: seq<Recovery.Step>, create: Op)
    requires CodecOk(f.codec) && Run(f, dim, states, steps) && PrintableRun(f, dim, states, steps)
    requires create.Create? && InRange(f.hnsw, create) && Printable(f.codec, create)
    requires states[|steps|].phase == Missing
    ensures (forall states', steps' :: Anew(f, dim, states, steps, create, states', steps') ==>
      Accurate(f, dim, states'[|steps'|])) <==> Truth(dim, states[|steps|]) == map[]
  {
    if Truth(dim, states[|steps|]) == map[] {
      forall states', steps' | Anew(f, dim, states, steps, create, states', steps')
        ensures Accurate(f, dim, states'[|steps'|])
      {
        AnewPrintable(f, dim, states, steps, create, states', steps');
        RecoveredClose(f, dim, states', steps', |steps'|);
      }
    } else {
      var states', steps' := OldRecordsReturn(f, dim, states, steps, create);
      NotAccurate(f, dim, states'[|steps'|], Truth(dim, states[|steps|]));
    }
  }

  lemma NotAccurate(f: Format, dim: nat, s: State, lost: Records)
    requires Returned(f, s, lost) && lost != map[]
    ensures !Accurate(f, dim, s)
  {
    assert Truth(dim, s) == map[];
    assert lost.Keys != {};
  }

  // ----- an input

  /** A table is up that holds exactly the record of this insertion although nothing was ever written to it. */
  ghost predicate HoldsUnwritten(f: Format, dim: nat, e: Op, states: seq<State>, steps: seq<Recovery.Step>)
    requires e.Insert?
  {
    && Run(f, dim, states, steps)
    && var t := states[|steps|];
       t.phase == Running && t.history == [] && t.store == map[e.id := Data(e.id, e.vector, e.content)]
  }

  lemma OneMorePrintable(f: Format, dim: nat, states: seq<State>, steps: seq<Recovery.Step>,
      s: State, step: Recovery.Step)
      returns (states': seq<State>, steps': seq<Recovery.Step>)
    requires Run(f, dim, states, steps) && PrintableRun(f, dim, states, steps) && states[|steps|] == s
    requires Enabled(f, s, step) && StepPrintable(f.codec, step) && !step.Recreate?
    ensures Run(f, dim, states', steps') && PrintableRun(f, dim, states', steps')
    ensures states'[|steps'|] == Next(f, dim, s, step)
  {
    states', steps' := OneMore(f, dim, states, steps, s, step);
    forall i | 0 <= i < |steps'|
      ensures Sensible(f, dim, states', steps', i)
    {
      assert i < |steps| ==> Sensible(f, dim, states, steps, i);
    }
  }

  /** One insertion, and a crash before the first shutdown. */
  lemma LostAfterInsertion(f: Format, dim: nat, create: Op, e: Op, s: State)
      returns (states: seq<State>, steps: seq<Recovery.Step>)
    requires Init(f, s) && create.Create? && InRange(f.hnsw, create) && Printable(f.codec, create)
    requires AllPrintable(f.codec, s.logged) && e.Insert? && InRange(f.hnsw, e) && Printable(f.codec, e)
    ensures Run(f, dim, states, steps) && PrintableRun(f, dim, states, steps)
    ensures states[|steps|].phase == Missing && states[|steps|].history == [e]
  {
    states, steps := [s], [];
    var t := Logging(f, s, e).(history := [e]);
    assert s.history + [e] == [e];
    states, steps := OneMorePrintable(f, dim, states, steps, s, Append(e));
    states, steps := OneMorePrintable(f, dim, states, steps, t.(pending := Recovery.Logged(e)), Apply);
    states, steps := OneMorePrintable(f, dim, states, steps, t.(store := Replay.Step(dim, map[], e)), Crash);
    states, steps := OneMorePrintable(f, dim, states, steps, t.(phase := Down), Startup(create));
  }

  /** A kept insertion into a table that is lost before its first shutdown comes back in a new table. */
  lemma LostTableReturns(f: Format, dim: nat, create: Op, e: Op)
    requires CodecOk(f.codec) && create.Create? && InRange(f.hnsw, create) && Printable(f.codec, create)
    requires e.Insert? && InRange(f.hnsw, e) && Kept(f.codec, e) && |e.vector| == dim
    ensures exists states, steps :: HoldsUnwritten(f, dim, e, states, steps)
  {
    var s := State(Running, map[], Nothing, map[], false, ShowLog(f.codec, [create]), [create], map[], []);
    var states, steps := LostAfterInsertion(f, dim, create, e, s);
    var lost := Truth(dim, states[|steps|]);
    PlayOne(dim, map[], e);
    var states', steps' := OldRecordsReturn(f, dim, states, steps, create);
    VectorBackOk(f.codec, e.vector);
    CloseExact(f.codec, states'[|steps'|].store, lost);
    assert HoldsUnwritten(f, dim, e, states', steps');
  }
}
