/** Crash and recovery of one table on the primary: append then apply; snapshot, metadata and then the log at
    shutdown; snapshot plus replay at startup (engine/src/engine.cc). A crash may come anywhere.

    The log is its text, and what is replayed is what its lines say. */
module Recovery {
  import opened Ranking
  import opened LogEntries
  import opened WalText
  import opened WalRoundTrip
  import opened StoredRecords
  import opened Replay
  import opened LogReadings

  /** `Missing`: the engine is up without the table, because its metadata was never saved. `Hung`: the replay
      has met a drop, and waits for the log that it holds itself. */
  datatype Phase = Running | Stopping | Saved | Described | Cleared | Down | Missing | Hung

  datatype Pending = Nothing | Logged(op: Op)

  /** `snapshot`, `metadata` and `wal` survive a crash. The rest is not in the program: `logged` lists the
      operations behind the text, `saved` is what the snapshot should be, and `history` lists every operation
      on the table since it was created. */
  datatype State = State(
    phase: Phase,
    store: Records,
    pending: Pending,
    snapshot: Records,
    metadata: bool,
    wal: string,
    logged: seq<Op>,
    saved: Records,
    history: seq<Op>)

  /** A table is created with an empty store and a log that starts with its creation. */
  predicate Init(f: Format, s: State) {
    && s.phase == Running && s.pending == Nothing && s.store == map[] && s.snapshot == map[] && !s.metadata
    && |s.logged| == 1 && s.logged[0].Create? && InRange(f.hnsw, s.logged[0]) && s.wal == ShowLog(f.codec, s.logged)
    && s.saved == map[] && s.history == []
  }

  datatype Step =
    | Append(op: Op)
    | Apply
    | BeginShutdown
    | SaveSnapshot
    | SaveMetadata
    | ClearLog
    | Crash
    | Startup(create: Op)
    | Recreate(create: Op)

  predicate Enabled(f: Format, s: State, step: Step) {
    match step
    case Append(e) => s.phase == Running && s.pending == Nothing && IsWrite(e) && InRange(f.hnsw, e)
    case Apply => s.phase == Running && s.pending.Logged?
    case BeginShutdown => s.phase == Running && s.pending == Nothing
    case SaveSnapshot => s.phase == Stopping
    case SaveMetadata => s.phase == Saved
    case ClearLog => s.phase == Described
    case Crash => true
    case Startup(create) => s.phase == Down && create.Create? && InRange(f.hnsw, create)
    case Recreate(create) => s.phase == Missing && create.Create? && InRange(f.hnsw, create)
  }

  /** One more line in the log, which is opened for appending whatever is in it. */
  function Logging(f: Format, s: State, e: Op): State {
    s.(wal := s.wal + ShowEntry(f.codec, e) + "\n", logged := s.logged + [e])
  }

  /** At startup a table with metadata is created again, which logs one more creation, before the log is
      replayed over the snapshot. */
  function Restored(f: Format, dim: nat, s: State, create: Op): State {
    var t := Logging(f, s, create);
    var lines := Lines(f, t.wal);
    t.(phase := if Drop in lines then Hung else Running, store := Play(dim, s.snapshot, lines))
  }

  function Next(f: Format, dim: nat, s: State, step: Step): State
    requires Enabled(f, s, step)
  {
    match step
    case Append(e) => Logging(f, s, e).(pending := Logged(e), history := s.history + [e])
    case Apply => s.(store := Replay.Step(dim, s.store, s.pending.op), pending := Nothing)
    case BeginShutdown => s.(phase := Stopping)
    case SaveSnapshot => s.(phase := Saved, snapshot := s.store, saved := Truth(dim, s))
    case SaveMetadata => s.(phase := Described, metadata := true)
    case ClearLog => s.(phase := Cleared, wal := "", logged := [])
    case Crash => s.(phase := Down, store := map[], pending := Nothing)
    case Startup(create) => if s.metadata then Restored(f, dim, s, create) else s.(phase := Missing)
    case Recreate(create) => Logging(f, s, create).(phase := Running, store := map[], history := [])
  }

  /** The records that the whole history describes. */
  function Truth(dim: nat, s: State): Records {
    Play(dim, map[], s.history)
  }

  predicate Up(phase: Phase) {
    phase != Down && phase != Missing && phase != Hung
  }

  // ----- records that differ only in how their vectors read back

  predicate SameOrReprinted(codec: Codec<real>, d: Data, exact: Data) {
    && d.id == exact.id && d.content == exact.content
    && (d.vector == exact.vector || d.vector == VectorBack(codec, exact.vector))
  }

  /** The same ids with the same contents, and each vector exact or as it reads back. */
  ghost predicate Close(codec: Codec<real>, s: Records, exact: Records) {
    s.Keys == exact.Keys && forall id :: id in exact ==> SameOrReprinted(codec, s[id], exact[id])
  }

  lemma StepClose(codec: Codec<real>, dim: nat, s: Records, exact: Records, e: Op, e': Op)
    requires CodecOk(codec) && Close(codec, s, exact) && Printable(codec, e) && (e' == e || e' == Reprinted(codec, e))
    ensures Close(codec, Replay.Step(dim, s, e'), Replay.Step(dim, exact, e))
  {
    if e.Insert? {
      VectorBackOk(codec, e.vector);
    }
  }

  lemma {:induction false} PlayClose(codec: Codec<real>, dim: nat, s: Records, exact: Records, log: seq<Op>)
    requires CodecOk(codec) && Close(codec, s, exact) && AllPrintable(codec, log)
    ensures Close(codec, Play(dim, s, ReprintedAll(codec, log)), Play(dim, exact, log))
    decreases |log|
  {
    if log == [] {
    } else {
      StepClose(codec, dim, s, exact, log[0], Reprinted(codec, log[0]));
      PlayClose(codec, dim, Replay.Step(dim, s, Reprinted(codec, log[0])), Replay.Step(dim, exact, log[0]), log[1..]);
      assert ReprintedAll(codec, log)[1..] == ReprintedAll(codec, log[1..]);
    }
  }

  /** Every vector reads back as itself. */
  ghost predicate AllExact(codec: Codec<real>, store: Records) {
    forall id :: id in store ==> VectorBack(codec, store[id].vector) == store[id].vector
  }

  lemma {:induction false} PlayExact(codec: Codec<real>, dim: nat, store: Records, log: seq<Op>)
    requires CodecOk(codec) && AllExact(codec, store) && AllKept(codec, log)
    ensures AllExact(codec, Play(dim, store, log))
    decreases |log|
  {
    if log == [] {
    } else {
      if log[0].Insert? {
        VectorBackOk(codec, log[0].vector);
      }
      PlayExact(codec, dim, Replay.Step(dim, store, log[0]), log[1..]);
    }
  }

  lemma CloseExact(codec: Codec<real>, s: Records, exact: Records)
    requires Close(codec, s, exact) && AllExact(codec, exact)
    ensures s == exact
  {}

  // ----- the invariant of runs whose operations are printable

  /** The store that the operations before the pending one describe. */
  ghost predicate StoreOk(f: Format, dim: nat, s: State) {
    match s.pending
    case Nothing => Close(f.codec, s.store, Truth(dim, s))
    case Logged(e) =>
      var n := |s.history| - 1;
      s.phase == Running && n >= 0 && s.history[n] == e && Close(f.codec, s.store, Play(dim, map[], s.history[..n]))
  }

  ghost predicate LogOk(f: Format, s: State) {
    s.wal == ShowLog(f.codec, s.logged) && AllInRange(f.hnsw, s.logged) && AllPrintable(f.codec, s.logged)
  }

  ghost predicate Inv(f: Format, dim: nat, s: State) {
    && LogOk(f, s) && Drop !in s.logged && s.phase != Hung && AllPrintable(f.codec, s.history)
    && Play(dim, s.saved, s.logged) == Truth(dim, s)
    && Close(f.codec, s.snapshot, s.saved)
    && (Up(s.phase) ==> StoreOk(f, dim, s))
    && (s.phase == Saved || s.phase == Described || s.phase == Cleared ==> s.saved == Truth(dim, s))
  }

  lemma LoggingShown(f: Format, s: State, e: Op)
    requires s.wal == ShowLog(f.codec, s.logged)
    ensures Logging(f, s, e).wal == ShowLog(f.codec, s.logged + [e])
  {
    ShowLogConcat(f.codec, s.logged, [e]);
    ShowLogOne(f.codec, e);
    var line := ShowEntry(f.codec, e) + "\n";
    assert s.wal + ShowEntry(f.codec, e) + "\n" == s.wal + line;
  }

  lemma LoggingText(f: Format, s: State, e: Op)
    requires s.wal == ShowLog(f.codec, s.logged)
    ensures Lines(f, Logging(f, s, e).wal) == Lines(f, s.wal) + LinesOf(f, e)
  {
    LoggingShown(f, s, e);
    RereadConcat(f, s.logged, [e]);
    RereadOne(f, e);
  }

  lemma LoggingOk(f: Format, s: State, e: Op)
    requires LogOk(f, s) && InRange(f.hnsw, e) && Printable(f.codec, e)
    ensures LogOk(f, Logging(f, s, e))
  {
    LoggingShown(f, s, e);
    SnocOk(f, s.logged, e);
  }

  lemma SnocOk(f: Format, log: seq<Op>, e: Op)
    requires AllInRange(f.hnsw, log) && AllPrintable(f.codec, log) && InRange(f.hnsw, e) && Printable(f.codec, e)
    ensures AllInRange(f.hnsw, log + [e]) && AllPrintable(f.codec, log + [e])
  {}

  lemma InitInv(f: Format, dim: nat, s: State)
    requires Init(f, s) && AllPrintable(f.codec, s.logged)
    ensures Inv(f, dim, s)
  {
    assert s.logged == [s.logged[0]];
    PlayOne(dim, s.saved, s.logged[0]);
  }

  lemma AppendInv(f: Format, dim: nat, s: State, e: Op)
    requires Inv(f, dim, s) && Enabled(f, s, Append(e)) && Printable(f.codec, e)
    ensures Inv(f, dim, Next(f, dim, s, Append(e)))
  {
    LoggingOk(f, s, e);
    PlayConcat(dim, s.saved, s.logged, [e]);
    PlayConcat(dim, map[], s.history, [e]);
    assert (s.history + [e])[..|s.history|] == s.history;
  }

  lemma ApplyInv(f: Format, dim: nat, s: State)
    requires CodecOk(f.codec) && Inv(f, dim, s) && Enabled(f, s, Apply)
    ensures Inv(f, dim, Next(f, dim, s, Apply))
  {
    var n := |s.history| - 1;
    var before := Play(dim, map[], s.history[..n]);
    assert s.history == s.history[..n] + [s.pending.op];
    PlayConcat(dim, map[], s.history[..n], [s.pending.op]);
    PlayOne(dim, before, s.pending.op);
    StepClose(f.codec, dim, s.store, before, s.pending.op, s.pending.op);
  }

  /** A creation in the log changes no records. */
  lemma CreationLogged(f: Format, dim: nat, s: State, create: Op)
    requires LogOk(f, s) && create.Create? && InRange(f.hnsw, create) && Printable(f.codec, create)
    ensures LogOk(f, Logging(f, s, create))
    ensures Play(dim, s.saved, Logging(f, s, create).logged) == Play(dim, s.saved, s.logged)
  {
    LoggingOk(f, s, create);
    PlayConcat(dim, s.saved, s.logged, [create]);
    PlayOne(dim, Play(dim, s.saved, s.logged), create);
  }

  /** What a restart replays: the printable log again, with no drop in it. */
  lemma StartupLines(f: Format, s: State, create: Op)
    requires CodecOk(f.codec) && LogOk(f, s) && Drop !in s.logged
    requires create.Create? && InRange(f.hnsw, create) && Printable(f.codec, create)
    ensures var t := Logging(f, s, create);
      Lines(f, t.wal) == ReprintedAll(f.codec, t.logged) && Drop !in Lines(f, t.wal)
  {
    var t := Logging(f, s, create);
    LoggingOk(f, s, create);
    PrintableLog(f, t.logged);
    assert Drop !in ReprintedAll(f.codec, t.logged);
  }

  lemma RestoredClose(f: Format, dim: nat, s: State, exact: Records, create: Op)
    requires CodecOk(f.codec) && LogOk(f, s) && Drop !in s.logged && Close(f.codec, s.snapshot, exact)
    requires create.Create? && InRange(f.hnsw, create) && Printable(f.codec, create)
    ensures var t := Restored(f, dim, s, create);
      t.phase == Running && Close(f.codec, t.store, Play(dim, exact, s.logged))
  {
    var logged := s.logged + [create];
    StartupLines(f, s, create);
    SnocOk(f, s.logged, create);
    PlayClose(f.codec, dim, s.snapshot, exact, logged);
    PlayConcat(dim, exact, s.logged, [create]);
    PlayOne(dim, Play(dim, exact, s.logged), create);
  }

  lemma StartupInv(f: Format, dim: nat, s: State, create: Op)
    requires CodecOk(f.codec) && Inv(f, dim, s) && Enabled(f, s, Startup(create)) && Printable(f.codec, create)
    requires s.pending == Nothing
    ensures Inv(f, dim, Next(f, dim, s, Startup(create)))
  {
    if s.metadata {
      CreationLogged(f, dim, s, create);
      RestoredClose(f, dim, s, s.saved, create);
    }
  }

  /** From now on the log is replayed over records that already hold its effects. */
  lemma SnapshotInv(f: Format, dim: nat, s: State)
    requires Inv(f, dim, s) && Enabled(f, s, SaveSnapshot) && PendingOk(s)
    ensures Inv(f, dim, Next(f, dim, s, SaveSnapshot))
  {
    ReplayIdempotent(dim, s.saved, s.logged, s.logged);
  }

  /** A table is created anew over the log that a lost one has left behind only if the lost one held nothing. */
  predicate Careful(dim: nat, s: State, step: Step) {
    step.Recreate? ==> Truth(dim, s) == map[]
  }

  predicate StepPrintable(codec: Codec<real>, step: Step) {
    match step
    case Append(e) => Printable(codec, e)
    case Startup(create) => Printable(codec, create)
    case Recreate(create) => Printable(codec, create)
    case _ => true
  }

  /** Only a running table has an operation half done. */
  predicate PendingOk(s: State) {
    s.pending.Logged? ==> s.phase == Running
  }

  lemma NextInv(f: Format, dim: nat, s: State, step: Step, t: State)
    requires CodecOk(f.codec) && Inv(f, dim, s) && PendingOk(s)
    requires Enabled(f, s, step) && StepPrintable(f.codec, step) && Careful(dim, s, step) && t == Next(f, dim, s, step)
    ensures Inv(f, dim, t) && PendingOk(t)
  {
    match step
    case Append(e) => AppendInv(f, dim, s, e);
    case Apply => ApplyInv(f, dim, s);
    case SaveSnapshot => SnapshotInv(f, dim, s);
    case Startup(create) => StartupInv(f, dim, s, create);
    case Recreate(create) => CreationLogged(f, dim, s, create);
    case _ => QuietInv(f, dim, s, step);
  }

  /** The other steps leave the records alone. */
  lemma QuietInv(f: Format, dim: nat, s: State, step: Step)
    requires Inv(f, dim, s) && PendingOk(s) && Enabled(f, s, step)
    requires step == BeginShutdown || step == SaveMetadata || step == ClearLog || step == Crash
    ensures Inv(f, dim, Next(f, dim, s, step))
  {}

  // ----- runs

  predicate Follows(f: Format, dim: nat, states: seq<State>, steps: seq<Step>, i: nat)
    requires i < |steps| && |states| == |steps| + 1
  {
    Enabled(f, states[i], steps[i]) && states[i + 1] == Next(f, dim, states[i], steps[i])
  }

  ghost predicate Run(f: Format, dim: nat, states: seq<State>, steps: seq<Step>) {
    && |states| == |steps| + 1 && Init(f, states[0])
    && forall i :: 0 <= i < |steps| ==> Follows(f, dim, states, steps, i)
  }

  /** A step that is printable and careful. */
  predicate Sensible(f: Format, dim: nat, states: seq<State>, steps: seq<Step>, i: nat) {
    i < |steps| && i < |states| ==> StepPrintable(f.codec, steps[i]) && Careful(dim, states[i], steps[i])
  }

  ghost predicate PrintableRun(f: Format, dim: nat, states: seq<State>, steps: seq<Step>) {
    && (states != [] ==> AllPrintable(f.codec, states[0].logged))
    && forall i :: 0 <= i < |steps| ==> Sensible(f, dim, states, steps, i)
  }

  lemma {:induction false} RunInv(f: Format, dim: nat, states: seq<State>, steps: seq<Step>, i: nat)
    requires CodecOk(f.codec) && Run(f, dim, states, steps) && PrintableRun(f, dim, states, steps) && i < |states|
    ensures Inv(f, dim, states[i]) && PendingOk(states[i])
  {
    if i == 0 {
      InitInv(f, dim, states[0]);
    } else {
      RunInv(f, dim, states, steps, i - 1);
      RunInvNext(f, dim, states, steps, i - 1, states[i - 1], states[i]);
    }
  }

  lemma RunInvNext(f: Format, dim: nat, states: seq<State>, steps: seq<Step>, i: nat, s: State, t: State)
    requires CodecOk(f.codec) && Run(f, dim, states, steps) && PrintableRun(f, dim, states, steps) && i < |steps|
    requires s == states[i] && t == states[i + 1] && Inv(f, dim, s) && PendingOk(s)
    ensures Inv(f, dim, t) && PendingOk(t)
  {
    var _, step, _ := PrintableStep(f, dim, states, steps, i);
    NextInv(f, dim, s, step, t);
  }

  lemma PrintableStep(f: Format, dim: nat, states: seq<State>, steps: seq<Step>, i: nat)
      returns (s: State, step: Step, t: State)
    requires Run(f, dim, states, steps) && PrintableRun(f, dim, states, steps) && i < |steps|
    ensures s == states[i] && step == steps[i] && t == states[i + 1]
    ensures Enabled(f, s, step) && t == Next(f, dim, s, step)
    ensures StepPrintable(f.codec, step) && Careful(dim, s, step)
  {
    s, step, t := states[i], steps[i], states[i + 1];
    assert Follows(f, dim, states, steps, i) && Sensible(f, dim, states, steps, i);
  }

  /** Wherever the crashes fall, also between saving the snapshot and clearing the log: no restart hangs, and
      whenever the table is up with no operation half done, it holds exactly the ids and contents of every
      operation on it, and each vector is exact or as it reads back from the log. */
  lemma RecoveredClose(f: Format, dim: nat, states: seq<State>, steps: seq<Step>, i: nat)
    requires CodecOk(f.codec) && Run(f, dim, states, steps) && PrintableRun(f, dim, states, steps) && i < |states|
    ensures states[i].phase != Hung
    ensures Up(states[i].phase) && states[i].pending == Nothing ==>
      Close(f.codec, states[i].store, Truth(dim, states[i]))
  {
    RunInv(f, dim, states, steps, i);
  }

  /** If moreover every operation was one that is kept, nothing is lost or duplicated at all. */
  lemma NothingLostOrDuplicated(f: Format, dim: nat, states: seq<State>, steps: seq<Step>, i: nat)
    requires CodecOk(f.codec) && Run(f, dim, states, steps) && PrintableRun(f, dim, states, steps) && i < |states|
    requires Up(states[i].phase) && states[i].pending == Nothing
    requires AllKept(f.codec, states[i].history)
    ensures states[i].store == Truth(dim, states[i])
  {
    RunInv(f, dim, states, steps, i);
    PlayExact(f.codec, dim, map[], states[i].history);
    CloseExact(f.codec, states[i].store, Truth(dim, states[i]));
  }
}
