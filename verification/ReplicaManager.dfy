/** One table of the primary with its replicas, one operation at a time: writes are logged as text, and a replica
    is sent the lines of that text, parsed again (engine/src/engine.cc, engine/src/replica/replica_manager.cc). */
module ReplicaManagers {
  import opened Ranking
  import opened LogEntries
  import opened WalText
  import opened WalRoundTrip
  import opened StoredRecords
  import opened Checksums
  import opened Replay
  import opened LogReadings
  import opened Persistence
  import opened Replication
  import opened ReplicaSyncs

  /** What `ValidateCreateTable` asks of the configuration that is given. */
  predicate ValidConfig(config: TableConfig<real>) {
    match config
    case HnswTable(dim, m, m0, ef, ml, _, _) => dim != 0 && m != 0 && m0 != 0 && ef != 0 && ml != 0.0
    case FlatTable(dim, _, _) => dim != 0
  }

  /** What `ValidateInsert` asks. */
  predicate ValidWrite(e: Op) {
    e.Insert? ==> e.vector != [] && e.content != ""
  }

  // ----- what replicas are worth, for lines that read back

  lemma SameTakes(f: Format, log: seq<Op>)
    requires CodecOk(f.codec) && AllInRange(f.hnsw, log) && AllPrintable(f.codec, log)
    ensures Reread(f, log) == ReprintedAll(f.codec, log)
    ensures forall i :: 0 <= i < |log| ==> Took(Reread(f, log), i) == Took(log, i)
    ensures Prefix(Reread(f, log), |log|) == PrintedTable(f.codec, Prefix(log, |log|))
  {
    PrintableLog(f, log);
    forall i | 0 <= i < |log|
      ensures Took(ReprintedAll(f.codec, log), i) == Took(log, i)
    {
      PrefixPrinted(f.codec, log, i);
    }
    PrefixPrinted(f.codec, log, |log|);
  }

  lemma LaterPeers(lines: seq<Op>, more: seq<Op>, replicas: seq<Address>, peers: Peers)
    requires PeersOk(lines, replicas, peers)
    ensures PeersOk(lines + more, replicas, peers)
  {
    forall r | 0 <= r < |replicas|
      ensures PeerOk(lines + more, peers[replicas[r]])
    {
      assert PeerOk(lines, peers[replicas[r]]);
      LaterLines(lines, more, peers[replicas[r]].offset, peers[replicas[r]].table);
    }
  }

  lemma LaterLog(f: Format, before: seq<Op>, e: Op, replicas: seq<Address>, peers: Peers)
    requires PeersOk(Reread(f, before), replicas, peers)
    ensures PeersOk(Reread(f, before + [e]), replicas, peers)
  {
    RereadConcat(f, before, [e]);
    LaterPeers(Reread(f, before), Reread(f, [e]), replicas, peers);
  }

  /** An operation that had no effect is not new for any replica either. */
  lemma StillNothingNew(f: Format, before: seq<Op>, e: Op, n: nat)
    requires CodecOk(f.codec) && AllInRange(f.hnsw, before + [e]) && AllPrintable(f.codec, before + [e])
    requires n <= |before| && n <= |Reread(f, before)| && NothingNew(Reread(f, before), n)
    requires !Accepts(Prefix(before, |before|), e)
    ensures n <= |Reread(f, before + [e])| && NothingNew(Reread(f, before + [e]), n)
  {
    var log := before + [e];
    assert before == log[..|before|];
    SameTakes(f, log);
    SameTakes(f, before);
    forall i | n <= i < |log|
      ensures !Took(log, i)
    {
      if i < |before| {
        assert !Took(Reread(f, before), i);
        TakesAgain(before, [e], i);
      } else {
        PrefixSame(before, [e], |before|);
      }
    }
  }

  /** No line after the offset of a replica takes effect there. */
  ghost predicate NothingNewFor(lines: seq<Op>, replicas: seq<Address>, peers: Peers)
    requires PeersOk(lines, replicas, peers)
  {
    forall r :: 0 <= r < |replicas| ==> NothingNew(lines, peers[replicas[r]].offset)
  }

  /** The table is what was logged; each replica is what the lines before its offset say; and a false modified
      flag means, for a printable log, that the rest of the lines says nothing new. */
  ghost predicate Agreed(f: Format, logged: seq<Op>, table: Table, modified: bool, replicas: seq<Address>, peers: Peers) {
    && AllInRange(f.hnsw, logged)
    && table == Prefix(logged, |logged|) && (table == Absent ==> logged == [])
    && PeersOk(Reread(f, logged), replicas, peers)
    && (!modified && AllPrintable(f.codec, logged) ==> NothingNewFor(Reread(f, logged), replicas, peers))
  }

  lemma StillNothingFor(f: Format, before: seq<Op>, e: Op, replicas: seq<Address>, peers: Peers)
    requires CodecOk(f.codec) && AllInRange(f.hnsw, before + [e]) && AllPrintable(f.codec, before + [e])
    requires PeersOk(Reread(f, before), replicas, peers) && PeersOk(Reread(f, before + [e]), replicas, peers)
    requires NothingNewFor(Reread(f, before), replicas, peers) && !Accepts(Prefix(before, |before|), e)
    ensures NothingNewFor(Reread(f, before + [e]), replicas, peers)
  {
    assert before == (before + [e])[..|before|];
    PrintableLog(f, before);
    forall r | 0 <= r < |replicas|
      ensures NothingNew(Reread(f, before + [e]), peers[replicas[r]].offset)
    {
      assert PeerOk(Reread(f, before), peers[replicas[r]]);
      StillNothingNew(f, before, e, peers[replicas[r]].offset);
    }
  }

  lemma ConditionsOfFront(f: Format, before: seq<Op>, e: Op)
    requires AllInRange(f.hnsw, before) && InRange(f.hnsw, e)
    ensures AllInRange(f.hnsw, before + [e])
    ensures AllPrintable(f.codec, before + [e]) ==> AllPrintable(f.codec, before)
  {
    if AllPrintable(f.codec, before + [e]) {
      forall i | 0 <= i < |before|
        ensures Printable(f.codec, before[i])
      {
        assert (before + [e])[i] == before[i];
      }
    }
  }

  /** Logging and applying an operation keeps the agreement, if the flag is raised when it takes effect. */
  lemma TakenAgreed(f: Format, before: seq<Op>, e: Op, table: Table, modified: bool, replicas: seq<Address>, peers: Peers)
    requires CodecOk(f.codec) && Agreed(f, before, table, modified, replicas, peers)
    requires InRange(f.hnsw, e) && (e.Create? || (IsWrite(e) && table != Absent))
    ensures Agreed(f, before + [e], Apply(table, e), modified || Accepts(table, e), replicas, peers)
  {
    PrefixSnoc(before, e);
    LaterLog(f, before, e, replicas, peers);
    ConditionsOfFront(f, before, e);
    if !modified && !Accepts(table, e) && AllPrintable(f.codec, before + [e]) {
      StillNothingFor(f, before, e, replicas, peers);
    }
  }

  /** So does a sync, whatever the network does, if the flag is lowered only when no failure is noted. */
  lemma SyncedAgreed(f: Format, logged: seq<Op>, table: Table, modified: bool, replicas: seq<Address>, peers: Peers,
      net: Network)
    requires Agreed(f, logged, table, modified, replicas, peers)
    ensures var (peers', failed) := SyncFrom(Reread(f, logged), TableChecksum(table), net, replicas, 0, peers, false);
      Agreed(f, logged, table, modified && failed, replicas, peers')
  {
    var lines, sum := Reread(f, logged), TableChecksum(table);
    var (peers', failed) := SyncFrom(lines, sum, net, replicas, 0, peers, false);
    SyncKeeps(lines, sum, net, replicas, 0, peers, false);
    forall r | 0 <= r < |replicas| && (!failed || (!modified && AllPrintable(f.codec, logged)))
      ensures NothingNew(lines, peers'[replicas[r]].offset)
    {
      assert PeerOk(lines, peers'[replicas[r]]);
      UnfailedSync(lines, sum, net, replicas, 0, peers, false, r);
      if failed {
        assert NothingNew(lines, peers[replicas[r]].offset);
      }
    }
  }

  /** The lines of an effective write do to a table what the write did exactly when the write is kept. */
  lemma LinesOnTable(f: Format, t: Table, e: Op)
    requires CodecOk(f.codec) && InRange(f.hnsw, e) && IsWrite(e) && Accepts(t, e)
    ensures ApplyAll(t, LinesOf(f, e)) == Apply(t, e) <==> Kept(f.codec, e)
  {
    if Kept(f.codec, e) {
      KeptLine(f, e);
      assert [e][..0] == [];
    } else {
      LostInsertion(f, e);
      var d := Data(e.id, e.vector, e.content);
      if Holds(ApplyAll(t, LinesOf(f, e)), d) {
        HeldBy(t, LinesOf(f, e), d);
      }
      assert Holds(Apply(t, e), d);
    }
  }

  predicate Holds(t: Table, d: Data) {
    t.Present? && d.id in t.store && t.store[d.id] == d
  }

  lemma {:induction false} HeldBy(t: Table, log: seq<Op>, d: Data)
    requires Holds(ApplyAll(t, log), d) && !Holds(t, d)
    ensures Entry.Insert(d.id, d.vector, d.content) in log
  {
    if log == [] {
      assert false;
    } else {
      var n := |log| - 1;
      if Holds(ApplyAll(t, log[..n]), d) {
        HeldBy(t, log[..n], d);
      } else {
        assert log[n] == Entry.Insert(d.id, d.vector, d.content);
      }
    }
  }

  lemma SumOfPrinted(codec: Codec<real>, t: Table)
    ensures TableChecksum(PrintedTable(codec, t)) == TableChecksum(t)
  {
    if t.Present? {
      ChecksumOfContents(PrintedRecords(codec, t.store), t.store);
    }
  }

  /** The replicas and the modified flag after a sync. */
  ghost function Synced(f: Format, logged: seq<Op>, table: Table, modified: bool, replicas: seq<Address>, peers: Peers,
      net: Network): (Peers, bool)
  {
    var (peers', failed) := SyncFrom(Reread(f, logged), TableChecksum(table), net, replicas, 0, peers, false);
    (peers', modified && failed)
  }

  // ----- what a lowered flag means

  /** With a lowered flag every replica holds the primary's table with its vectors as they read back. So it
      holds the same table exactly when every stored vector reads back as itself. */
  lemma UnmodifiedMeansPrinted(f: Format, logged: seq<Op>, table: Table, replicas: seq<Address>, peers: Peers, r: nat)
    requires CodecOk(f.codec) && Agreed(f, logged, table, false, replicas, peers) && r < |replicas|
    requires AllPrintable(f.codec, logged)
    ensures peers[replicas[r]].table == PrintedTable(f.codec, table)
    ensures peers[replicas[r]].table == table <==> ExactTable(f.codec, table)
  {
    var p := peers[replicas[r]];
    assert PeerOk(Reread(f, logged), p);
    NothingNewSame(Reread(f, logged), p.offset);
    SameTakes(f, logged);
    PrintedSame(f.codec, table);
  }

  /** With operations that are kept it holds the same table, whatever failed operations are in the log. */
  lemma UnmodifiedMeansEqual(f: Format, logged: seq<Op>, table: Table, replicas: seq<Address>, peers: Peers, r: nat)
    requires CodecOk(f.codec) && Agreed(f, logged, table, false, replicas, peers) && r < |replicas|
    requires AllKept(f.codec, logged)
    ensures peers[replicas[r]].table == table
  {
    UnmodifiedMeansPrinted(f, logged, table, replicas, peers, r);
    KeptExact(f.codec, logged);
    assert logged[..|logged|] == logged;
  }

  /** The condition is exact: after kept operations, a replica that has got an effective write holds the
      primary's table if and only if this write is kept too. */
  lemma LastWriteDecides(f: Format, before: seq<Op>, e: Op, table: Table, modified: bool, replicas: seq<Address>,
      peers: Peers, r: nat)
    requires CodecOk(f.codec) && Agreed(f, before + [e], table, modified, replicas, peers) && r < |replicas|
    requires AllKept(f.codec, before) && IsWrite(e) && Took(before + [e], |before|)
    requires peers[replicas[r]].offset == |Reread(f, before + [e])|
    ensures peers[replicas[r]].table == table <==> Kept(f.codec, e)
  {
    var t := Prefix(before, |before|);
    LogThenLines(f, before, e);
    PrefixSnoc(before, e);
    assert PeerOk(Reread(f, before + [e]), peers[replicas[r]]);
    assert (before + [e])[|before|] == e;
    LinesOnTable(f, t, e);
  }

  lemma KeptLines(f: Format, log: seq<Op>)
    requires CodecOk(f.codec) && AllKept(f.codec, log) && AllInRange(f.hnsw, log)
    ensures ApplyAll(Absent, Reread(f, log)) == Prefix(log, |log|)
  {
    PrintableLog(f, log);
    ApplyAllPrinted(f.codec, Absent, log);
    KeptExact(f.codec, log);
    PrintedSame(f.codec, ApplyAll(Absent, log));
    assert log[..|log|] == log;
  }

  /** What lines and log say after kept operations and one more. */
  lemma LogThenLines(f: Format, before: seq<Op>, e: Op)
    requires CodecOk(f.codec) && AllKept(f.codec, before) && AllInRange(f.hnsw, before + [e])
    ensures var lines := Reread(f, before + [e]);
      Prefix(lines, |lines|) == ApplyAll(Prefix(before, |before|), LinesOf(f, e))
  {
    LinesThen(f, before, e);
    assert AllInRange(f.hnsw, before) by {
      assert forall i :: 0 <= i < |before| ==> before[i] == (before + [e])[i];
    }
    KeptLines(f, before);
  }

  lemma PrefixSnoc(before: seq<Op>, e: Op)
    ensures Prefix(before + [e], |before|) == Prefix(before, |before|)
    ensures Prefix(before + [e], |before| + 1) == Apply(Prefix(before, |before|), e)
  {
    PrefixSame(before, [e], |before|);
    PrefixNext(before + [e], |before|);
    assert (before + [e])[|before|] == e;
  }

  lemma LinesThen(f: Format, before: seq<Op>, e: Op)
    ensures var lines := Reread(f, before + [e]);
      Prefix(lines, |lines|) == ApplyAll(ApplyAll(Absent, Reread(f, before)), LinesOf(f, e))
  {
    var lines := Reread(f, before + [e]);
    RereadConcat(f, before, [e]);
    RereadOne(f, e);
    assert lines[..|lines|] == lines;
    ApplyAllConcat(Absent, Reread(f, before), LinesOf(f, e));
  }

  // ----- when the flag is lowered

  lemma SameStuck(f: Format, logged: seq<Op>, replicas: seq<Address>, peers: Peers)
    requires CodecOk(f.codec) && AllInRange(f.hnsw, logged) && AllPrintable(f.codec, logged)
    ensures SomeStuck(Reread(f, logged), replicas, 0, peers) <==> SomeStuck(logged, replicas, 0, peers)
  {
    SameTakes(f, logged);
    forall n: nat
      ensures AllTake(Reread(f, logged), n) <==> AllTake(logged, n)
    {
      if AllTake(logged, n) {
        assert forall i :: n <= i < |logged| ==> Took(logged, i);
      }
      if AllTake(Reread(f, logged), n) {
        assert forall i :: n <= i < |logged| ==> Took(Reread(f, logged), i);
      }
    }
  }

  /** If all requests and answers arrive, a sync lowers the flag exactly when no operation that had no effect on
      the primary follows the offset of a replica. */
  lemma ReliableSyncLowersFlag(f: Format, logged: seq<Op>, table: Table, replicas: seq<Address>, peers: Peers, net: Network)
    requires CodecOk(f.codec) && Agreed(f, logged, table, true, replicas, peers) && AllPrintable(f.codec, logged)
    requires forall r, i :: net.request(r, i) && net.answer(r, i)
    ensures Synced(f, logged, table, true, replicas, peers, net).1 <==> SomeStuck(logged, replicas, 0, peers)
  {
    SameTakes(f, logged);
    SumOfPrinted(f.codec, table);
    ReliableSync(Reread(f, logged), TableChecksum(table), net, replicas, 0, peers, false);
    SameStuck(f, logged, replicas, peers);
  }

  /** A lossy vector goes unnoticed: the checksums agree, the flag is lowered, and every replica holds another
      vector. */
  lemma LossUnnoticed(f: Format, logged: seq<Op>, table: Table, replicas: seq<Address>, peers: Peers, net: Network,
      r: nat, id: Id)
    requires CodecOk(f.codec) && Agreed(f, logged, table, true, replicas, peers) && AllPrintable(f.codec, logged)
    requires forall r, i :: net.request(r, i) && net.answer(r, i)
    requires r < |replicas| && !SomeStuck(logged, replicas, 0, peers)
    requires table.Present? && id in table.store && VectorBack(f.codec, table.store[id].vector) != table.store[id].vector
    ensures var (peers', modified) := Synced(f, logged, table, true, replicas, peers, net);
      !modified && replicas[r] in peers' && peers'[replicas[r]].table != table
  {
    ReliableSyncLowersFlag(f, logged, table, replicas, peers, net);
    SyncedAgreed(f, logged, table, true, replicas, peers, net);
    var (peers', modified) := Synced(f, logged, table, true, replicas, peers, net);
    UnmodifiedMeansPrinted(f, logged, table, replicas, peers', r);
  }

  // ----- inputs

  /** A component that prints with six digits is not the one that a replica gets. */
  lemma RoundedOnReplica(f: Format, id: Id, content: string)
    requires CodecOk(f.codec) && id < WORD && OneLine(content) && ReadBack(f.codec, 0.1234567) == Some(0.123457)
    ensures var e: Op := Entry.Insert(id, [0.1234567], content);
      Holds(ApplyAll(Present(1, map[]), LinesOf(f, e)), Data(id, [0.123457], content))
  {
    var e: Op := Entry.Insert(id, [0.1234567], content);
    PrintableLine(f, e);
    assert e.vector[1..] == [] && VectorBack(f.codec, e.vector) == [0.123457];
    var line := [Reprinted(f.codec, e)];
    assert line[..0] == [];
    assert ApplyAll(Present(1, map[]), line) == Apply(Present(1, map[]), line[0]);
  }

  /** A content with a line end takes another record away from a replica. */
  lemma LineEndOnReplica(f: Format, t: Table, id: Id, vector: Vector, content: string, other: Id)
    requires CodecOk(f.codec) && id < WORD && other < WORD && id != other && OneLine(content)
    requires AllRead(f.codec, vector) && t.Present? && |vector| == t.dim && id !in t.store && other in t.store
    ensures var e: Op := Entry.Insert(id, vector, content + "\nremove " + ShowNat(other));
      var copy := ApplyAll(t, LinesOf(f, e));
      copy.Present? && other !in copy.store && other in Apply(t, e).store
  {
    LineEndRemoves(f, id, vector, content, other);
    VectorBackOk(f.codec, vector);
    var a: Op := Entry.Insert(id, VectorBack(f.codec, vector), content);
    var b: Op := Entry.Remove(other);
    assert [a, b][..1] == [a] && [a][..0] == [];
    assert ApplyAll(t, [a]) == Apply(t, a);
    assert ApplyAll(t, [a, b]) == Apply(Apply(t, a), b);
  }

  /** A content that goes on after a line end with a line that is no command: no replica ever passes that line. */
  lemma LineEndSticksReplica(f: Format, log: seq<Op>, id: Id, vector: Vector, content: string, more: string,
      later: seq<Op>, p: Peer)
    requires CodecOk(f.codec) && id < WORD && AllRead(f.codec, vector) && OneLine(content)
    requires NoCommand((more + "\n")[..LineSpan(more + "\n")])
    requires var lines := Reread(f, log + [Entry.Insert(id, vector, content + "\n" + more)]);
      var n := |Reread(f, log)| + 1;
      n <= |lines| && (Prefix(lines, n).Present? ==> Prefix(lines, n).dim > 0) && PeerOk(lines + later, p)
    ensures p.offset <= |Reread(f, log)| + 1
  {
    var e: Op := Entry.Insert(id, vector, content + "\n" + more);
    var n := |Reread(f, log)| + 1;
    var lines := Reread(f, log + [e]);
    RereadConcat(f, log, [e]);
    RereadOne(f, e);
    CutContent(f, id, vector, content, more);
    LinesCons(f, more + "\n");
    NoCommandRefused(f, (more + "\n")[..LineSpan(more + "\n")], Prefix(lines, n));
    TakesAgain(lines, later, n);
    FailedOperationStops(lines + later, p, n);
  }

  // ----- the object

  class ReplicaManager {
    const replicas: seq<Address>
    const format: Format
    const primary: bool
    const persistence: VectorPersistenceManager<real>
    var shutdown: bool
    var table: Table
    var modified: bool
    var peers: Peers

    ghost predicate Valid()
      reads this, persistence
    {
      && persistence.Valid() && persistence.codec == format.codec && persistence.hnsw == format.hnsw
      && CodecOk(format.codec) && Agreed(format, persistence.logged, table, modified, replicas, peers)
    }

    constructor (replicas: seq<Address>, format: Format, primary: bool)
      requires CodecOk(format.codec)
      ensures Valid() && table == Absent && !shutdown && !modified && fresh(persistence)
      ensures this.replicas == replicas && this.format == format && this.primary == primary
    {
      this.replicas := replicas;
      this.format := format;
      this.primary := primary;
      persistence := new VectorPersistenceManager(format.codec, format.hnsw);
      shutdown := false;
      table := Absent;
      modified := false;
      peers := map a | a in replicas :: Peer(0, Absent);
    }

    // ----- operations

    /** A creation is logged only if it is valid and there is no such table yet. */
    method CreateTable(config: TableConfig<real>) returns (ok: bool)
      requires Valid() && InRange(format.hnsw, Create(config))
      modifies this`table, this`modified, persistence
      ensures Valid()
      ensures ok <==> primary && !shutdown && ValidConfig(config) && old(table) == Absent
      ensures ok ==> config.dim != 0
      ensures ok && config.HnswTable? ==> config.m > 0 && config.m0 > 0 && config.efConstruction > 0 && config.ml != 0.0
      ensures if ok then persistence.logged == old(persistence.logged) + [Create(config)] && modified &&
          table == Present(Dimension(config), map[])
        else persistence.logged == old(persistence.logged) && table == old(table) && modified == old(modified)
    {
      if !primary || shutdown || !ValidConfig(config) || table != Absent {
        return false;
      }
      ghost var before := persistence.logged;
      persistence.AppendCreate(config);
      ok := Take(Create(config), before);
    }

    /** A valid write to an existing table is logged first, whether or not it then takes effect. */
    method Write(e: Op) returns (ok: bool)
      requires Valid() && IsWrite(e) && InRange(format.hnsw, e)
      modifies this`table, this`modified, persistence
      ensures Valid()
      ensures if primary && !shutdown && ValidWrite(e) && old(table) != Absent then
          && persistence.logged == old(persistence.logged) + [e] && ok == Accepts(old(table), e)
          && table == Apply(old(table), e) && modified == (old(modified) || ok)
        else !ok && persistence.logged == old(persistence.logged) && table == old(table) && modified == old(modified)
      ensures e.Insert? && (e.vector == [] || e.content == "") ==> persistence.logged == old(persistence.logged)
    {
      if !primary || shutdown || !ValidWrite(e) || table == Absent {
        return false;
      }
      ghost var before := persistence.logged;
      match e {
        case Insert(id, vector, content) => persistence.AppendInsert(id, vector, content);
        case Remove(id) => persistence.AppendRemove(id);
      }
      ok := Take(e, before);
    }

    /** The logged operation is applied; the flag is raised only if it takes effect. */
    method Take(e: Op, ghost before: seq<Op>) returns (ok: bool)
      requires persistence.Valid() && persistence.codec == format.codec && persistence.hnsw == format.hnsw
      requires CodecOk(format.codec) && persistence.logged == before + [e]
      requires Agreed(format, before, table, modified, replicas, peers)
      requires InRange(format.hnsw, e) && (e.Create? || (IsWrite(e) && table != Absent))
      modifies this`table, this`modified
      ensures Valid() && ok == Accepts(old(table), e)
      ensures table == Apply(old(table), e) && modified == (old(modified) || ok)
    {
      TakenAgreed(format, before, e, table, modified, replicas, peers);
      ok := Accepts(table, e);
      table := Apply(table, e);
      if ok {
        modified := true;
      }
    }

    // ----- sync

    /** The lines of the log from an offset on. */
    method EntriesFrom(offset: nat, ghost lines: seq<Op>) returns (entries: seq<Op>)
      requires persistence.codec == format.codec && persistence.hnsw == format.hnsw
      requires lines == Lines(format, persistence.wal)
      ensures entries == From(lines, offset)
    {
      var parsed := persistence.SerializeWALEntries(offset);
      entries := DeliveredAll(format, parsed);
    }

    /** One request to one replica: the primary moves the offset by the number it is told. */
    method Request(p: Peer, entries: seq<Op>, arrives: bool) returns (q: Peer, ok: bool, successful: nat)
      ensures ok == arrives
      ensures !arrives ==> successful == 0 && q == p
      ensures arrives ==> successful == Accepted(p.table, entries) <= |entries|
      ensures arrives ==> q == Peer(p.offset + successful, ApplyAll(p.table, entries[..successful]))
    {
      if !arrives {
        return p, false, 0;
      }
      var t;
      t, successful := Deliver(p.table, entries);
      q, ok := Peer(p.offset + successful, t), true;
    }

    /** One attempt for one replica, and whether it is the last one needed. */
    method Try(p: Peer, r: nat, net: Network, i: nat, before: bool, ghost lines: seq<Op>)
        returns (q: Peer, failed: bool, done: bool)
      requires persistence.codec == format.codec && persistence.hnsw == format.hnsw
      requires lines == Lines(format, persistence.wal) && PeerOk(lines, p)
      ensures (Outcome(q, failed), done) == Attempt(lines, TableChecksum(table), net, r, i, Outcome(p, before))
    {
      q, failed, done := p, before, false;
      var entries := EntriesFrom(p.offset, lines);
      if entries == [] {
        return;
      }
      var sum := SumOf(table);
      var ok, successful;
      q, ok, successful := Request(p, entries, net.request(r, i));
      assert q == if ok then Asked(lines, p) else p;
      if ok && successful == |entries| {
        var theirs := SumOf(q.table);
        if net.answer(r, i) && sum == theirs {
          done := true;
        } else {
          failed := true;
        }
      } else if i == RETRIES - 1 {
        failed := true;
      }
    }

    /** The attempts for one replica. */
    method SyncReplica(p: Peer, r: nat, net: Network, ghost lines: seq<Op>) returns (q: Peer, failed: bool)
      requires persistence.codec == format.codec && persistence.hnsw == format.hnsw
      requires lines == Lines(format, persistence.wal) && PeerOk(lines, p)
      ensures Outcome(q, failed) == Attempts(lines, TableChecksum(table), net, r, 0, Outcome(p, false))
    {
      ghost var sum := TableChecksum(table);
      ghost var target := Attempts(lines, sum, net, r, 0, Outcome(p, false));
      q, failed := p, false;
      var done := false;
      var i := 0;
      while i < RETRIES + 1 && !done
        invariant i <= RETRIES + 1 && PeerOk(lines, q)
        invariant target == if done then Outcome(q, failed) else Attempts(lines, sum, net, r, i, Outcome(q, failed))
      {
        AttemptOk(lines, sum, net, r, i, Outcome(q, failed));
        q, failed, done := Try(q, r, net, i, failed, lines);
        i := i + 1;
      }
    }

    /** `Sync` for this table: the flag is lowered only if no failure is noted for any replica. */
    method Sync(force: bool, net: Network)
      requires Valid()
      modifies this`peers, this`modified
      ensures Valid()
      ensures if (shutdown && !force) || table == Absent then peers == old(peers) && modified == old(modified)
        else (peers, modified) == Synced(format, persistence.logged, table, old(modified), replicas, old(peers), net)
    {
      if (shutdown && !force) || table == Absent {
        return;
      }
      ghost var lines, sum := Reread(format, persistence.logged), TableChecksum(table);
      SyncedAgreed(format, persistence.logged, table, modified, replicas, peers, net);
      var failed := SyncAll(net, lines);
      if !failed {
        modified := false;
      }
    }

    method SyncAll(net: Network, ghost lines: seq<Op>) returns (failed: bool)
      requires persistence.codec == format.codec && persistence.hnsw == format.hnsw
      requires lines == Lines(format, persistence.wal) && PeersOk(lines, replicas, peers)
      modifies this`peers
      ensures (peers, failed) == SyncFrom(lines, TableChecksum(table), net, replicas, 0, old(peers), false)
    {
      ghost var target := SyncFrom(lines, TableChecksum(table), net, replicas, 0, peers, false);
      failed := false;
      var r := 0;
      while r < |replicas|
        invariant 0 <= r <= |replicas| && PeersOk(lines, replicas, peers)
        invariant SyncFrom(lines, TableChecksum(table), net, replicas, r, peers, failed) == target
      {
        var a := replicas[r];
        AttemptsKeep(lines, TableChecksum(table), net, r, 0, Outcome(peers[a], false));
        SyncNext(lines, TableChecksum(table), net, replicas, r, peers, failed);
        var q, one := SyncReplica(peers[a], r, net, lines);
        assert SyncFrom(lines, TableChecksum(table), net, replicas, r + 1, peers[a := q], failed || one) == target;
        peers, failed, r := peers[a := q], failed || one, r + 1;
      }
    }

    method SumOf(t: Table) returns (sum: nat)
      ensures sum == TableChecksum(t)
    {
      if t.Present? {
        sum := ChecksumOf(t.store);
      } else {
        sum := 0;
      }
    }
  }
}
