/** Restarts of one table of the primary (engine/src/engine.cc): when the table comes back at all, and which writes
    survive. */
module Restarts {
  import opened Ranking
  import opened LogEntries
  import opened WalText
  import opened WalRoundTrip
  import opened StoredRecords
  import opened Replay
  import opened LogReadings
  import opened Recovery

  // ----- when the table comes back at all

  lemma RunStep(f: Format, dim: nat, states: seq<State>, steps: seq<Recovery.Step>, i: nat)
      returns (s: State, step: Recovery.Step)
    requires Run(f, dim, states, steps) && i < |steps|
    ensures s == states[i] && step == steps[i] && Enabled(f, s, step) && states[i + 1] == Next(f, dim, s, step)
  {
    s, step := states[i], steps[i];
    assert Follows(f, dim, states, steps, i);
  }

  predicate SavedBefore(steps: seq<Recovery.Step>, i: nat) {
    exists j :: 0 <= j < i && j < |steps| && steps[j] == SaveMetadata
  }

  lemma SavedNext(steps: seq<Recovery.Step>, i: nat)
    requires i < |steps|
    ensures SavedBefore(steps, i + 1) <==> SavedBefore(steps, i) || steps[i] == SaveMetadata
  {}

  lemma {:induction false} MetadataMeaning(f: Format, dim: nat, states: seq<State>, steps: seq<Recovery.Step>, i: nat)
    requires Run(f, dim, states, steps) && i < |states|
    ensures states[i].metadata <==> SavedBefore(steps, i)
  {
    if i == 0 {
    } else {
      MetadataMeaning(f, dim, states, steps, i - 1);
      var s, step := RunStep(f, dim, states, steps, i - 1);
      MetadataStep(f, dim, s, step);
      SavedNext(steps, i - 1);
    }
  }

  lemma MetadataStep(f: Format, dim: nat, s: State, step: Recovery.Step)
    requires Enabled(f, s, step)
    ensures Next(f, dim, s, step).metadata <==> s.metadata || step == SaveMetadata
  {}

  /** In every run the log file is the text of the operations logged, and a hang has its cause in it. */
  ghost predicate TextOk(f: Format, s: State) {
    && s.wal == ShowLog(f.codec, s.logged) && AllInRange(f.hnsw, s.logged) && Drop !in s.logged
    && (s.phase == Hung ==> s.metadata && SomeHidesDrop(s.logged))
  }

  lemma LoggingTextOk(f: Format, s: State, e: Op)
    requires CodecOk(f.codec) && TextOk(f, s) && InRange(f.hnsw, e) && !e.Drop?
    ensures var t := Logging(f, s, e);
      && t.wal == ShowLog(f.codec, t.logged) && AllInRange(f.hnsw, t.logged) && Drop !in t.logged
      && (Drop in Lines(f, t.wal) <==> SomeHidesDrop(t.logged))
      && (SomeHidesDrop(t.logged) <==> SomeHidesDrop(s.logged) || HidesDrop(e))
  {
    LoggingShown(f, s, e);
    DropsOfLog(f, s.logged + [e]);
    SomeSnoc(s.logged, e);
  }

  lemma NextTextOk(f: Format, dim: nat, s: State, step: Recovery.Step)
    requires CodecOk(f.codec) && TextOk(f, s) && Enabled(f, s, step)
    ensures TextOk(f, Next(f, dim, s, step))
  {
    match step
    case Append(e) => LoggingTextOk(f, s, e);
    case Startup(create) => LoggingTextOk(f, s, create);
    case Recreate(create) => LoggingTextOk(f, s, create);
    case _ =>
  }

  lemma {:induction false} RunTextOk(f: Format, dim: nat, states: seq<State>, steps: seq<Recovery.Step>, i: nat)
    requires CodecOk(f.codec) && Run(f, dim, states, steps) && i < |states|
    ensures TextOk(f, states[i])
  {
    if i == 0 {
      assert states[0].logged == [states[0].logged[0]];
    } else {
      RunTextOk(f, dim, states, steps, i - 1);
      var s, step := RunStep(f, dim, states, steps, i - 1);
      NextTextOk(f, dim, s, step);
    }
  }

  predicate LogsHiddenDrop(step: Recovery.Step) {
    step.Append? && HidesDrop(step.op)
  }

  /** Before the `i`-th step a content that hides a drop was logged, and the log was not cleared since. */
  predicate DropPending(steps: seq<Recovery.Step>, i: nat) {
    exists j :: 0 <= j < i && j < |steps| && LogsHiddenDrop(steps[j]) && !ClearedBetween(steps, j, i)
  }

  predicate ClearedBetween(steps: seq<Recovery.Step>, j: nat, i: nat) {
    exists k :: j < k < i && k < |steps| && steps[k] == ClearLog
  }

  lemma DropPendingNext(steps: seq<Recovery.Step>, i: nat)
    requires i < |steps|
    ensures DropPending(steps, i + 1) <==>
      steps[i] != ClearLog && (DropPending(steps, i) || LogsHiddenDrop(steps[i]))
  {
    forall j | 0 <= j < i
      ensures ClearedBetween(steps, j, i + 1) <==> ClearedBetween(steps, j, i) || steps[i] == ClearLog
    {
    }
    assert !ClearedBetween(steps, i, i + 1);
    if LogsHiddenDrop(steps[i]) {
      assert DropPending(steps, i + 1);
    }
  }

  lemma HiddenDropNext(f: Format, dim: nat, s: State, step: Recovery.Step)
    requires Enabled(f, s, step)
    ensures SomeHidesDrop(Next(f, dim, s, step).logged) <==>
      step != ClearLog && (SomeHidesDrop(s.logged) || LogsHiddenDrop(step))
  {
    match step
    case Append(e) => SomeSnoc(s.logged, e);
    case Startup(create) => SomeSnoc(s.logged, create);
    case Recreate(create) => SomeSnoc(s.logged, create);
    case _ =>
  }

  lemma {:induction false} HiddenDropMeaning(f: Format, dim: nat, states: seq<State>, steps: seq<Recovery.Step>, i: nat)
    requires Run(f, dim, states, steps) && i < |states|
    ensures SomeHidesDrop(states[i].logged) <==> DropPending(steps, i)
  {
    if i == 0 {
      NothingHidden(states[0].logged);
    } else {
      HiddenDropMeaning(f, dim, states, steps, i - 1);
      HiddenDropAt(f, dim, states, steps, i - 1);
      DropPendingNext(steps, i - 1);
    }
  }

  lemma NothingHidden(log: seq<Op>)
    requires |log| == 1 && log[0].Create?
    ensures !SomeHidesDrop(log)
  {
    assert log == [] + [log[0]];
    SomeSnoc([], log[0]);
  }

  lemma HiddenDropAt(f: Format, dim: nat, states: seq<State>, steps: seq<Recovery.Step>, i: nat)
    requires Run(f, dim, states, steps) && i < |steps|
    ensures SomeHidesDrop(states[i + 1].logged) <==>
      steps[i] != ClearLog && (SomeHidesDrop(states[i].logged) || LogsHiddenDrop(steps[i]))
  {
    var s, step := RunStep(f, dim, states, steps, i);
    HiddenDropNext(f, dim, s, step);
  }

  /** In every run, a restart brings the table back if and only if its metadata was saved before and no content
      logged since the log was last cleared hides a drop. Without metadata the table is missing; with a hidden
      drop its replay hangs. */
  lemma ComesBackIff(f: Format, dim: nat, states: seq<State>, steps: seq<Recovery.Step>, i: nat)
    requires CodecOk(f.codec) && Run(f, dim, states, steps) && i < |steps| && steps[i].Startup?
    ensures states[i + 1].phase == Running <==> SavedBefore(steps, i) && !DropPending(steps, i)
    ensures states[i + 1].phase == Missing <==> !SavedBefore(steps, i)
    ensures states[i + 1].phase == Hung <==> SavedBefore(steps, i) && DropPending(steps, i)
  {
    MetadataMeaning(f, dim, states, steps, i);
    HiddenDropMeaning(f, dim, states, steps, i);
    RunTextOk(f, dim, states, steps, i);
    var s, step := RunStep(f, dim, states, steps, i);
    LoggingTextOk(f, s, step.create);
  }

  /** With printable operations the metadata alone decides, and what comes back is what was there. */
  lemma PrintableComesBack(f: Format, dim: nat, states: seq<State>, steps: seq<Recovery.Step>, i: nat)
    requires CodecOk(f.codec) && Run(f, dim, states, steps) && PrintableRun(f, dim, states, steps)
    requires i < |steps| && steps[i].Startup?
    ensures states[i + 1].phase == Running <==> SavedBefore(steps, i)
    ensures SavedBefore(steps, i) ==> Close(f.codec, states[i + 1].store, Truth(dim, states[i]))
  {
    ComesBackIff(f, dim, states, steps, i);
    RecoveredClose(f, dim, states, steps, i + 1);
    assert states[i].pending == Nothing by { RunInv(f, dim, states, steps, i); StartupKeeps(f, dim, states, steps, i); }
    StartupKeeps(f, dim, states, steps, i);
  }

  lemma StartupKeeps(f: Format, dim: nat, states: seq<State>, steps: seq<Recovery.Step>, i: nat)
    requires Run(f, dim, states, steps) && i < |steps| && steps[i].Startup?
    ensures states[i].phase == Down
    ensures states[i + 1].history == states[i].history && states[i + 1].pending == states[i].pending
  {
    assert Follows(f, dim, states, steps, i);
  }

  /** The log of a hung table will hang every replay. */
  ghost predicate Stuck(s: State) {
    (s.phase == Hung || s.phase == Down) && s.metadata && SomeHidesDrop(s.logged)
  }

  lemma StuckNext(f: Format, dim: nat, s: State, step: Recovery.Step)
    requires CodecOk(f.codec) && TextOk(f, s) && Stuck(s) && Enabled(f, s, step)
    ensures Stuck(Next(f, dim, s, step))
  {
    if step.Startup? {
      LoggingTextOk(f, s, step.create);
    }
  }

  lemma StuckStep(f: Format, dim: nat, states: seq<State>, steps: seq<Recovery.Step>, i: nat)
    requires CodecOk(f.codec) && Run(f, dim, states, steps) && i < |steps| && Stuck(states[i])
    ensures Stuck(states[i + 1])
  {
    RunTextOk(f, dim, states, steps, i);
    var s, step := RunStep(f, dim, states, steps, i);
    StuckNext(f, dim, s, step);
  }

  /** What every step keeps, every later state has. */
  lemma {:induction false} KeptOn<T>(xs: seq<T>, kept: T -> bool, i: nat, j: nat)
    requires i <= j < |xs| && kept(xs[i])
    requires forall k :: i <= k < |xs| - 1 && kept(xs[k]) ==> kept(xs[k + 1])
    ensures kept(xs[j])
    decreases j
  {
    if i < j {
      KeptOn(xs, kept, i, j - 1);
    }
  }

  /** A hang is for ever: every later restart hangs again. */
  lemma HungForever(f: Format, dim: nat, states: seq<State>, steps: seq<Recovery.Step>, i: nat, j: nat)
    requires CodecOk(f.codec) && Run(f, dim, states, steps) && i <= j < |states| && states[i].phase == Hung
    ensures states[j].phase == Hung || states[j].phase == Down
  {
    RunTextOk(f, dim, states, steps, i);
    forall k | i <= k < |steps| && Stuck(states[k])
      ensures Stuck(states[k + 1])
    {
      StuckStep(f, dim, states, steps, k);
    }
    KeptOn(states, Stuck, i, j);
  }

  // ----- exactness

  /** A record that was not there before comes from an insertion of just this record. */
  lemma {:induction false} InsertedBy(dim: nat, o: Option<Data>, id: Id, log: seq<Op>, d: Data)
    requires PlayAt(dim, o, id, log) == Some(d) && o != Some(d)
    ensures Entry.Insert(id, d.vector, d.content) in log
    decreases |log|
  {
    if log == [] {
      assert false;
    } else if StepAt(dim, o, id, log[0]) == Some(d) {
      assert log[0] == Entry.Insert(id, d.vector, d.content);
    } else {
      InsertedBy(dim, StepAt(dim, o, id, log[0]), id, log[1..], d);
    }
  }

  /** The lines of an effective write do to the records what the write did exactly when the write is kept. */
  lemma LinesOfWrite(f: Format, dim: nat, store: Records, e: Op)
    requires CodecOk(f.codec) && InRange(f.hnsw, e) && Succeeds(dim, store, e)
    ensures Play(dim, store, LinesOf(f, e)) == Replay.Step(dim, store, e) <==> Kept(f.codec, e)
    ensures Kept(f.codec, e) ==> LinesOf(f, e) == [e]
  {
    if Kept(f.codec, e) {
      KeptLine(f, e);
      PlayOne(dim, store, e);
    } else {
      LostInsertion(f, e);
      var after := Play(dim, store, LinesOf(f, e));
      PlayIsPlayAt(dim, store, e.id, LinesOf(f, e));
      if At(after, e.id) == Some(Data(e.id, e.vector, e.content)) {
        InsertedBy(dim, None, e.id, LinesOf(f, e), Data(e.id, e.vector, e.content));
      }
      assert At(Replay.Step(dim, store, e), e.id) == Some(Data(e.id, e.vector, e.content));
    }
  }

  /** Nothing has been lost or changed so far. */
  ghost predicate Flawless(f: Format, s: State) {
    && AllKept(f.codec, s.history) && AllKept(f.codec, s.logged)
    && s.snapshot == s.saved && AllExact(f.codec, s.saved)
  }

  predicate StepKept(codec: Codec<real>, step: Recovery.Step) {
    StepPrintable(codec, step) && (step.Append? ==> Kept(codec, step.op))
  }

  ghost predicate KeptRun(f: Format, dim: nat, states: seq<State>, steps: seq<Recovery.Step>) {
    PrintableRun(f, dim, states, steps) && forall i :: 0 <= i < |steps| ==> StepKept(f.codec, steps[i])
  }

  lemma NextFlawless(f: Format, dim: nat, s: State, step: Recovery.Step)
    requires CodecOk(f.codec) && Inv(f, dim, s) && Flawless(f, s)
    requires Enabled(f, s, step) && StepKept(f.codec, step) && Careful(dim, s, step) && PendingOk(s)
    ensures Flawless(f, Next(f, dim, s, step))
  {
    if step == SaveSnapshot {
      PlayExact(f.codec, dim, map[], s.history);
      CloseExact(f.codec, s.store, Truth(dim, s));
    }
  }

  lemma {:induction false} RunFlawless(f: Format, dim: nat, states: seq<State>, steps: seq<Recovery.Step>, i: nat)
    requires CodecOk(f.codec) && Run(f, dim, states, steps) && KeptRun(f, dim, states, steps) && i < |states|
    ensures Flawless(f, states[i])
  {
    if i == 0 {
      InitFlawless(f, states[0]);
    } else {
      RunFlawless(f, dim, states, steps, i - 1);
      var s, step := KeptStep(f, dim, states, steps, i - 1);
      NextFlawless(f, dim, s, step);
      assert states[i] == Next(f, dim, s, step);
    }
  }

  lemma InitFlawless(f: Format, s: State)
    requires Init(f, s) && AllPrintable(f.codec, s.logged)
    ensures Flawless(f, s)
  {}

  lemma KeptStep(f: Format, dim: nat, states: seq<State>, steps: seq<Recovery.Step>, i: nat)
      returns (s: State, step: Recovery.Step)
    requires CodecOk(f.codec) && Run(f, dim, states, steps) && KeptRun(f, dim, states, steps) && i < |steps|
    ensures s == states[i] && step == steps[i] && Inv(f, dim, s) && PendingOk(s)
    ensures Enabled(f, s, step) && states[i + 1] == Next(f, dim, s, step)
    ensures StepKept(f.codec, step) && Careful(dim, s, step)
  {
    RunInv(f, dim, states, steps, i);
    var t;
    s, step, t := PrintableStep(f, dim, states, steps, i);
  }

  /** One write, applied, then a crash and a restart. */
  function CrashAfter(f: Format, dim: nat, s: State, e: Op, create: Op): State
    requires Enabled(f, s, Append(e)) && create.Create? && InRange(f.hnsw, create)
  {
    var applied := Next(f, dim, Next(f, dim, s, Append(e)), Apply);
    Next(f, dim, Next(f, dim, applied, Crash), Startup(create))
  }

  lemma ReplayedLog(f: Format, dim: nat, s: State)
    requires CodecOk(f.codec) && Inv(f, dim, s) && Flawless(f, s)
    ensures Play(dim, s.snapshot, Reread(f, s.logged)) == Truth(dim, s)
    ensures Drop !in Reread(f, s.logged)
  {
    PrintableLog(f, s.logged);
    PlayClose(f.codec, dim, s.snapshot, s.saved, s.logged);
    PlayExact(f.codec, dim, s.saved, s.logged);
    CloseExact(f.codec, Play(dim, s.snapshot, Reread(f, s.logged)), Truth(dim, s));
  }

  /** What is replayed after a write, a crash and the creation that startup logs. */
  lemma LinesAfter(f: Format, s: State, e: Op, create: Op)
    requires CodecOk(f.codec) && s.wal == ShowLog(f.codec, s.logged)
    requires create.Create? && InRange(f.hnsw, create) && Printable(f.codec, create)
    ensures Lines(f, Logging(f, Logging(f, s, e), create).wal) ==
      Lines(f, s.wal) + LinesOf(f, e) + [Reprinted(f.codec, create)]
  {
    LoggingShown(f, s, e);
    LoggingText(f, s, e);
    LoggingText(f, Logging(f, s, e), create);
    PrintableLine(f, create);
  }

  lemma PlayBeforeCreation(dim: nat, store: Records, a: seq<Op>, b: seq<Op>, create: Op)
    requires create.Create?
    ensures Play(dim, store, a + b + [create]) == Play(dim, Play(dim, store, a), b)
  {
    PlayConcat(dim, store, a + b, [create]);
    PlayConcat(dim, store, a, b);
    PlayOne(dim, Play(dim, Play(dim, store, a), b), create);
  }

  /** All that a crash leaves of a write, applied or not, is its line. */
  lemma CrashLeavesLine(f: Format, dim: nat, s: State, e: Op)
    requires Enabled(f, s, Append(e))
    ensures Next(f, dim, Next(f, dim, Next(f, dim, s, Append(e)), Apply), Crash) ==
      Logging(f, s, e).(phase := Down, store := map[], pending := Recovery.Nothing, history := s.history + [e])
  {}

  lemma CrashAfterReplays(f: Format, dim: nat, s: State, e: Op, create: Op)
    requires Enabled(f, s, Append(e)) && create.Create? && InRange(f.hnsw, create) && s.metadata
    ensures var t := CrashAfter(f, dim, s, e, create);
      var lines := Lines(f, Logging(f, Logging(f, s, e), create).wal);
      && t.store == Play(dim, s.snapshot, lines) && t.history == s.history + [e]
      && t.phase == if Drop in lines then Hung else Running
  {
    CrashLeavesLine(f, dim, s, e);
  }

  lemma ReplayedAfter(f: Format, dim: nat, s: State, e: Op, create: Op)
    requires CodecOk(f.codec) && Inv(f, dim, s) && Flawless(f, s) && Enabled(f, s, Append(e)) && s.metadata
    requires create.Create? && InRange(f.hnsw, create) && Printable(f.codec, create)
    ensures var t := CrashAfter(f, dim, s, e, create);
      && t.store == Play(dim, Truth(dim, s), LinesOf(f, e))
      && t.history == s.history + [e]
      && t.phase == if Drop in LinesOf(f, e) then Hung else Running
  {
    CrashAfterReplays(f, dim, s, e, create);
    LinesAfter(f, s, e, create);
    ReplayedLog(f, dim, s);
    PlayBeforeCreation(dim, s.snapshot, Lines(f, s.wal), LinesOf(f, e), Reprinted(f.codec, create));
    DropIn(Lines(f, s.wal), LinesOf(f, e), Reprinted(f.codec, create));
  }

  lemma DropIn(a: seq<Op>, b: seq<Op>, create: Op)
    requires Drop !in a && create.Create?
    ensures Drop in a + b + [create] <==> Drop in b
  {}

  /** The condition on operations is exact. In every run of kept operations, at every point where a saved table
      is running: an effective write survives a crash right after it if and only if it is kept. */
  lemma SurvivesCrashIffKept(f: Format, dim: nat, states: seq<State>, steps: seq<Recovery.Step>, e: Op, create: Op)
    requires CodecOk(f.codec) && Run(f, dim, states, steps) && KeptRun(f, dim, states, steps)
    requires var s := states[|steps|];
      Enabled(f, s, Append(e)) && s.metadata && Succeeds(dim, Truth(dim, s), e)
    requires create.Create? && InRange(f.hnsw, create) && Printable(f.codec, create)
    ensures var t := CrashAfter(f, dim, states[|steps|], e, create);
      t.phase == Running && t.store == Truth(dim, t) <==> Kept(f.codec, e)
  {
    var s := states[|steps|];
    RunInv(f, dim, states, steps, |steps|);
    RunFlawless(f, dim, states, steps, |steps|);
    ReplayedAfter(f, dim, s, e, create);
    LinesOfWrite(f, dim, Truth(dim, s), e);
    PlayConcat(dim, map[], s.history, [e]);
    PlayOne(dim, Truth(dim, s), e);
  }

  // ----- inputs that are lost or changed

  lemma RemovedAfter(dim: nat, store: Records, e: Op, other: Id)
    ensures other !in Play(dim, store, [e, Entry.Remove(other)])
  {
    assert [e, Entry.Remove(other)] == [e] + [Entry.Remove(other)];
    PlayConcat(dim, store, [e], [Entry.Remove(other)]);
    PlayOne(dim, Play(dim, store, [e]), Entry.Remove(other));
  }

  /** A content with a line end: inserting it takes another record away at the next restart. */
  lemma LineEndLosesRecord(f: Format, dim: nat, states: seq<State>, steps: seq<Recovery.Step>, create: Op,
      id: Id, vector: Vector, content: string, other: Id)
    requires CodecOk(f.codec) && Run(f, dim, states, steps) && KeptRun(f, dim, states, steps)
    requires create.Create? && InRange(f.hnsw, create) && Printable(f.codec, create)
    requires var s := states[|steps|];
      && s.phase == Running && s.pending == Nothing && s.metadata
      && id !in Truth(dim, s) && |vector| == dim && other in Truth(dim, s)
    requires id < WORD && other < WORD && id != other && AllRead(f.codec, vector) && OneLine(content)
    ensures var e: Op := Entry.Insert(id, vector, content + "\nremove " + ShowNat(other));
      var t := CrashAfter(f, dim, states[|steps|], e, create);
      t.phase == Running && other in Truth(dim, t) && other !in t.store
  {
    var s := states[|steps|];
    var e: Op := Entry.Insert(id, vector, content + "\nremove " + ShowNat(other));
    RunInv(f, dim, states, steps, |steps|);
    RunFlawless(f, dim, states, steps, |steps|);
    ReplayedAfter(f, dim, s, e, create);
    LineEndRemoves(f, id, vector, content, other);
    RemovedAfter(dim, Truth(dim, s), Entry.Insert(id, VectorBack(f.codec, vector), content), other);
    PlayConcat(dim, map[], s.history, [e]);
    PlayOne(dim, Truth(dim, s), e);
  }

  /** A content with a line end and a drop after it: after a crash the restart hangs, whatever happened before. */
  lemma LineEndHangs(f: Format, dim: nat, states: seq<State>, steps: seq<Recovery.Step>, create: Op,
      id: Id, vector: Vector, content: string)
    requires CodecOk(f.codec) && Run(f, dim, states, steps)
    requires var s := states[|steps|]; s.phase == Running && s.pending == Nothing && s.metadata
    requires create.Create? && InRange(f.hnsw, create) && id < WORD && OneLine(content)
    ensures var e: Op := Entry.Insert(id, vector, content + "\ndrop");
      CrashAfter(f, dim, states[|steps|], e, create).phase == Hung
  {
    var s := states[|steps|];
    var e: Op := Entry.Insert(id, vector, content + "\ndrop");
    RunTextOk(f, dim, states, steps, |steps|);
    LineEndDrops(id, vector, content);
    LoggingTextOk(f, s, e);
    LoggingTextOk(f, Logging(f, s, e), create);
    CrashAfterReplays(f, dim, s, e, create);
  }

  /** A content that goes on after a line end with lines that are no commands: it comes back cut short at its first
      line end, and every other record is as it was. */
  lemma LineEndCutsContent(f: Format, dim: nat, states: seq<State>, steps: seq<Recovery.Step>, create: Op,
      id: Id, vector: Vector, content: string, more: string)
    requires CodecOk(f.codec) && Run(f, dim, states, steps) && KeptRun(f, dim, states, steps)
    requires create.Create? && InRange(f.hnsw, create) && Printable(f.codec, create)
    requires var s := states[|steps|];
      s.phase == Running && s.pending == Nothing && s.metadata && id !in Truth(dim, s) && |vector| == dim
    requires dim > 0 && id < WORD && AllRead(f.codec, vector) && OneLine(content) && Chatter(more)
    ensures var s := states[|steps|];
      var t := CrashAfter(f, dim, s, Entry.Insert(id, vector, content + "\n" + more), create);
      && t.phase == Running
      && t.store == Truth(dim, s)[id := Data(id, VectorBack(f.codec, vector), content)]
  {
    var s := states[|steps|];
    var e: Op := Entry.Insert(id, vector, content + "\n" + more);
    RunInv(f, dim, states, steps, |steps|);
    RunFlawless(f, dim, states, steps, |steps|);
    ReplayedAfter(f, dim, s, e, create);
    CutInsertion(f, dim, Truth(dim, s), id, vector, content, more);
  }

  lemma CutInsertion(f: Format, dim: nat, store: Records, id: Id, vector: Vector, content: string, more: string)
    requires CodecOk(f.codec) && dim > 0 && id !in store && |vector| == dim
    requires id < WORD && AllRead(f.codec, vector) && OneLine(content) && Chatter(more)
    ensures var lines := LinesOf(f, Entry.Insert(id, vector, content + "\n" + more));
      && Play(dim, store, lines) == store[id := Data(id, VectorBack(f.codec, vector), content)] && Drop !in lines
  {
    var first: Op := Entry.Insert(id, VectorBack(f.codec, vector), content);
    CutContent(f, id, vector, content, more);
    ChatterFinished(more);
    VectorBackOk(f.codec, vector);
    PlayConcat(dim, store, [first], Lines(f, more + "\n"));
    PlayOne(dim, store, first);
    ChatterFails(f, more + "\n", dim, Replay.Step(dim, store, first));
  }

  /** A component that prints with six digits: it comes back rounded. */
  lemma RoundedAtRestart(f: Format, states: seq<State>, steps: seq<Recovery.Step>, create: Op, id: Id, content: string)
    requires CodecOk(f.codec) && Run(f, 1, states, steps) && KeptRun(f, 1, states, steps)
    requires create.Create? && InRange(f.hnsw, create) && Printable(f.codec, create)
    requires var s := states[|steps|];
      s.phase == Running && s.pending == Nothing && s.metadata && id !in Truth(1, s)
    requires id < WORD && OneLine(content) && ReadBack(f.codec, 0.1234567) == Some(0.123457)
    ensures var t := CrashAfter(f, 1, states[|steps|], Entry.Insert(id, [0.1234567], content), create);
      && t.phase == Running && id in t.store && t.store[id].vector == [0.123457]
      && id in Truth(1, t) && Truth(1, t)[id].vector == [0.1234567]
  {
    var s := states[|steps|];
    var e: Op := Entry.Insert(id, [0.1234567], content);
    RunInv(f, 1, states, steps, |steps|);
    RunFlawless(f, 1, states, steps, |steps|);
    ReplayedAfter(f, 1, s, e, create);
    PrintableLine(f, e);
    assert e.vector[1..] == [] && VectorBack(f.codec, e.vector) == [0.123457];
    PlayOne(1, Truth(1, s), Reprinted(f.codec, e));
    PlayConcat(1, map[], s.history, [e]);
    PlayOne(1, Truth(1, s), e);
  }
}
