/** The primary restarts (engine/src/engine.cc, engine/src/replica/replica_manager.cc): its offsets start at zero again,
    and its log starts with a creation, which a replica that still has the table refuses. */
module RestartSyncs {
  import opened Ranking
  import opened LogEntries
  import opened WalText
  import opened WalRoundTrip
  import opened Replay
  import opened LogReadings
  import opened Recovery
  import opened Restarts
  import opened Replication
  import opened ReplicaSyncs
  import Protocol = ReplicaProtocol

  /** The log starts with a creation, and is not empty while the table is running. */
  predicate StartsWithCreation(s: State) {
    (s.logged != [] ==> s.logged[0].Create?) && (s.phase == Running ==> s.logged != [])
  }

  lemma NextStartsWithCreation(f: Format, dim: nat, s: State, step: Recovery.Step)
    requires StartsWithCreation(s) && Enabled(f, s, step)
    ensures StartsWithCreation(Next(f, dim, s, step))
  {}

  lemma {:induction false} RunStartsWithCreation(f: Format, dim: nat, states: seq<State>, steps: seq<Recovery.Step>,
      i: nat)
    requires Run(f, dim, states, steps) && i < |states|
    ensures StartsWithCreation(states[i])
  {
    if i > 0 {
      RunStartsWithCreation(f, dim, states, steps, i - 1);
      var s, step := RunStep(f, dim, states, steps, i - 1);
      NextStartsWithCreation(f, dim, s, step);
    }
  }

  lemma CreationSaysCreation(f: Format, create: Op)
    requires CodecOk(f.codec) && create.Create? && InRange(f.hnsw, create)
    ensures LinesOf(f, create) != [] && LinesOf(f, create)[0].Create?
  {
    OneLineOf(f, create);
    ParseCreateOk(f.codec, f.hnsw, create.config);
  }

  /** In every run, the first thing that the log of a running table says is a creation: a restart logs one before
      anything else, also over a log that was cleared. */
  lemma LogStartsWithCreation(f: Format, dim: nat, states: seq<State>, steps: seq<Recovery.Step>, i: nat)
    requires CodecOk(f.codec) && Run(f, dim, states, steps) && i < |states| && states[i].phase == Running
    ensures var lines := Lines(f, states[i].wal); lines != [] && lines[0].Create?
  {
    var log := states[i].logged;
    RunTextOk(f, dim, states, steps, i);
    RunStartsWithCreation(f, dim, states, steps, i);
    assert log == [log[0]] + log[1..];
    RereadConcat(f, [log[0]], log[1..]);
    RereadOne(f, log[0]);
    CreationSaysCreation(f, log[0]);
  }

  /** After a restart of the primary, when every offset is zero again: a replica is stuck for good if and only if it
      still has the table. */
  lemma RestartSticksIffPresent(f: Format, dim: nat, states: seq<State>, steps: seq<Recovery.Step>, i: nat, t: Table)
    requires CodecOk(f.codec) && Run(f, dim, states, steps) && i < |states| && states[i].phase == Running
    ensures Protocol.Stuck(Lines(f, states[i].wal), Protocol.Node(0, t, Protocol.Nothing)) <==> t.Present?
  {
    LogStartsWithCreation(f, dim, states, steps, i);
  }

  /** And then no sync gets anywhere: whatever the network does, the replica stays as it is and a failure is noted. */
  lemma RestartedSyncFails(f: Format, dim: nat, states: seq<State>, steps: seq<Recovery.Step>, i: nat, t: Table,
      sum: nat, net: Network, r: nat)
    requires CodecOk(f.codec) && Run(f, dim, states, steps) && i < |states| && states[i].phase == Running && t.Present?
    ensures Attempts(Lines(f, states[i].wal), sum, net, r, 0, Outcome(Peer(0, t), false)) == Outcome(Peer(0, t), true)
  {
    var lines := Lines(f, states[i].wal);
    LogStartsWithCreation(f, dim, states, steps, i);
    assert lines[0..] == lines && lines[..0] == [];
    assert Asked(lines, Peer(0, t)) == Peer(0, t);
    AttemptsStuck(lines, sum, net, r, 0, Outcome(Peer(0, t), false));
  }

  /** A replica that restarts has no table, because it restores none: unless the next entry is a creation, it is
      stuck. */
  lemma LostReplicaSticksIff(lines: seq<Op>, n: nat)
    requires n < |lines|
    ensures Protocol.Stuck(lines, Protocol.Node(n, Absent, Protocol.Nothing)) <==> !lines[n].Create?
  {}
}
