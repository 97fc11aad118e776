/** Replication of one table (engine/src/replica/replica_manager.cc,
    engine/src/replica/replica_manager_service_impl.cc): the primary sends each replica the log from the
    replica's offset on, the replica applies entries until the first failure and answers how many it applied. */
module Replication {
  import opened Ranking
  import opened LogEntries
  import opened StoredRecords
  import opened WalText
  import opened WalRoundTrip
  import opened Replay
  import opened LogReadings

  /** A table on some node. */
  datatype Table = Absent | Present(dim: nat, store: Records)

  /** The `int` dimension of a table as the `size_t` that vector sizes are compared with. */
  function Dimension(config: TableConfig<real>): nat {
    config.dim % WORD
  }

  /** `ApplyWALEntry`: whether it succeeds, and the table after it. */
  predicate Accepts(t: Table, e: Op) {
    match e
    case Create(_) => t == Absent
    case Drop => t.Present?
    case _ => t.Present? && Succeeds(t.dim, t.store, e)
  }

  function Apply(t: Table, e: Op): Table {
    if !Accepts(t, e) then t
    else
      match e
      case Create(config) => Present(Dimension(config), map[])
      case Drop => Absent
      case _ => Present(t.dim, Replay.Step(t.dim, t.store, e))
  }

  function ApplyAll(t: Table, log: seq<Op>): Table {
    if log == [] then t else Apply(ApplyAll(t, log[..|log| - 1]), log[|log| - 1])
  }

  /** The table that the first `n` entries of a log describe. */
  function Prefix(log: seq<Op>, n: nat): Table
    requires n <= |log|
  {
    ApplyAll(Absent, log[..n])
  }

  /** Entry `i` took effect when the log was written. */
  predicate Took(log: seq<Op>, i: nat)
    requires i < |log|
  {
    Accepts(Prefix(log, i), log[i])
  }

  lemma PrefixNext(log: seq<Op>, n: nat)
    requires n < |log|
    ensures Prefix(log, n + 1) == Apply(Prefix(log, n), log[n])
  {
    assert log[..n + 1][..n] == log[..n];
  }

  lemma PrefixSame(log: seq<Op>, more: seq<Op>, n: nat)
    requires n <= |log|
    ensures Prefix(log + more, n) == Prefix(log, n)
  {
    assert (log + more)[..n] == log[..n];
  }

  lemma TakesAgain(lines: seq<Op>, more: seq<Op>, i: nat)
    requires i < |lines|
    ensures Took(lines + more, i) == Took(lines, i)
  {
    PrefixSame(lines, more, i);
    assert (lines + more)[i] == lines[i];
  }

  /** Later lines leave a replica in step. */
  lemma LaterLines(lines: seq<Op>, more: seq<Op>, n: nat, t: Table)
    requires HoldsPrefix(lines, n, t)
    ensures HoldsPrefix(lines + more, n, t)
  {
    PrefixSame(lines, more, n);
    forall i | 0 <= i < n
      ensures Took(lines + more, i)
    {
      TakesAgain(lines, more, i);
    }
  }

  // ----- the replica's side

  /** How many entries the replica applies before the first failure. */
  function Accepted(t: Table, entries: seq<Op>): (n: nat)
    ensures n <= |entries|
    decreases |entries|
  {
    if entries == [] || !Accepts(t, entries[0]) then 0 else 1 + Accepted(Apply(t, entries[0]), entries[1..])
  }

  /** A replica that holds the first `n` entries and is sent the rest moves on to a later prefix, and every
      entry it passes took effect on the primary too. */
  lemma {:induction false} AcceptedPrefix(log: seq<Op>, n: nat, end: nat)
    requires n <= end <= |log|
    ensures var k := Accepted(Prefix(log, n), log[n..end]);
      && n + k <= end
      && (forall i :: n <= i < n + k ==> Took(log, i))
      && (n + k < end ==> !Took(log, n + k))
    decreases end - n
  {
    if n == end || !Took(log, n) {
    } else {
      PrefixNext(log, n);
      assert log[n..end][1..] == log[n + 1..end];
      AcceptedPrefix(log, n + 1, end);
    }
  }

  /** No replica accepts a line without a command. */
  lemma NoCommandRefused(f: Format, line: string, t: Table)
    requires NoCommand(line) && (t.Present? ==> t.dim > 0)
    ensures !Accepts(t, Delivered(f, ParseEntry(f.codec, f.hnsw, line)))
  {
    if t.Present? {
      NoCommandFails(f, line, t.dim, t.store);
    }
  }

  class Replica {
    var table: Table

    constructor (table: Table)
      ensures this.table == table
    {
      this.table := table;
    }

    /** `ReplicaManagerServiceImpl::Sync`. */
    method Sync(entries: seq<Op>) returns (successful: nat)
      modifies this
      ensures successful == Accepted(old(table), entries)
      ensures table == ApplyAll(old(table), entries[..successful])
    {
      ghost var t := table;
      successful := 0;
      assert entries[0..] == entries && entries[..0] == [];
      while successful < |entries|
        invariant 0 <= successful <= |entries|
        invariant table == ApplyAll(t, entries[..successful])
        invariant Accepted(t, entries) == successful + Accepted(table, entries[successful..])
      {
        var e := entries[successful];
        assert entries[successful..][0] == e && entries[successful..][1..] == entries[successful + 1..];
        if !Accepts(table, e) {
          break;
        }
        assert entries[..successful + 1][..successful] == entries[..successful];
        table := Apply(table, e);
        successful := successful + 1;
      }
    }
  }

  lemma {:induction false} ApplyAllConcat(t: Table, a: seq<Op>, b: seq<Op>)
    ensures ApplyAll(t, a + b) == ApplyAll(ApplyAll(t, a), b)
    decreases |b|
  {
    if b == [] {
      assert a + b == a;
    } else {
      var n := |b| - 1;
      assert (a + b)[..|a + b| - 1] == a + b[..n];
      ApplyAllConcat(t, a, b[..n]);
    }
  }

  /** Every entry from `n` on took effect. */
  ghost predicate AllTake(log: seq<Op>, n: nat) {
    forall i :: n <= i < |log| ==> Took(log, i)
  }

  /** No entry from `n` on took effect. */
  ghost predicate NothingNew(log: seq<Op>, n: nat)
    requires n <= |log|
  {
    forall i :: n <= i < |log| ==> !Took(log, i)
  }

  /** A replica that holds exactly what the first `n` entries describe, all of which took effect. */
  ghost predicate HoldsPrefix(log: seq<Op>, n: nat, t: Table) {
    n <= |log| && t == Prefix(log, n) && forall i :: 0 <= i < n ==> Took(log, i)
  }

  /** What the replica holds after one answered sync. */
  lemma SyncedPrefix(log: seq<Op>, n: nat, end: nat)
    requires n <= end <= |log|
    ensures var k := Accepted(Prefix(log, n), log[n..end]);
      n + k <= end && ApplyAll(Prefix(log, n), log[n..end][..k]) == Prefix(log, n + k)
  {
    AcceptedPrefix(log, n, end);
    var k := Accepted(Prefix(log, n), log[n..end]);
    ApplyAllConcat(Absent, log[..n], log[n..end][..k]);
    Parts(log, n, end, k);
  }

  lemma Parts<T>(s: seq<T>, n: nat, end: nat, k: nat)
    requires n + k <= end <= |s|
    ensures s[..n] + s[n..end][..k] == s[..n + k]
  {}

  /** One answered sync moves the replica to the prefix that the new offset says. */
  lemma Answered(log: seq<Op>, n: nat, t: Table)
    requires HoldsPrefix(log, n, t)
    ensures var k := Accepted(t, log[n..]);
      && HoldsPrefix(log, n + k, ApplyAll(t, log[n..][..k]))
      && (NothingNew(log, n) ==> NothingNew(log, n + k))
      && (n + k < |log| ==> !Took(log, n + k))
  {
    assert log[n..] == log[n..|log|];
    AcceptedPrefix(log, n, |log|);
    SyncedPrefix(log, n, |log|);
  }

  /** Whether the replica gets to the end of the log: exactly when every entry from its offset on took effect
      on the primary. */
  lemma AnsweredReachesEnd(log: seq<Op>, n: nat)
    requires n <= |log|
    ensures n + Accepted(Prefix(log, n), log[n..]) == |log| <==> AllTake(log, n)
  {
    assert log[n..] == log[n..|log|];
    AcceptedPrefix(log, n, |log|);
  }

  /** The remote node at work on one request. */
  method Deliver(t: Table, entries: seq<Op>) returns (t': Table, successful: nat)
    ensures successful == Accepted(t, entries)
    ensures t' == ApplyAll(t, entries[..successful])
  {
    var replica := new Replica(t);
    successful := replica.Sync(entries);
    t' := replica.table;
  }

  lemma {:induction false} NothingNewSame(log: seq<Op>, n: nat)
    requires n <= |log| && NothingNew(log, n)
    ensures Prefix(log, n) == Prefix(log, |log|)
    decreases |log| - n
  {
    if n == |log| {
    } else {
      assert !Took(log, n);
      PrefixNext(log, n);
      NothingNewSame(log, n + 1);
    }
  }

  // ----- tables whose vectors are as they read back

  ghost function PrintedRecords(codec: Codec<real>, store: Records): Records {
    map id | id in store :: store[id].(vector := VectorBack(codec, store[id].vector))
  }

  ghost function PrintedTable(codec: Codec<real>, t: Table): Table {
    match t
    case Absent => Absent
    case Present(dim, store) => Present(dim, PrintedRecords(codec, store))
  }

  /** Every stored vector reads back as itself. */
  ghost predicate ExactTable(codec: Codec<real>, t: Table) {
    t.Present? ==> forall id :: id in t.store ==> VectorBack(codec, t.store[id].vector) == t.store[id].vector
  }

  lemma PrintedSame(codec: Codec<real>, t: Table)
    ensures PrintedTable(codec, t) == t <==> ExactTable(codec, t)
  {
    if t.Present? {
      assert forall id :: id in t.store ==> PrintedRecords(codec, t.store)[id].vector == VectorBack(codec, t.store[id].vector);
    }
  }

  /** Entries with their floats as they read back do to such tables what the entries do to the exact ones. */
  lemma ApplyPrinted(codec: Codec<real>, t: Table, e: Op)
    requires CodecOk(codec) && FloatsRead(codec, e)
    ensures Accepts(PrintedTable(codec, t), Reprinted(codec, e)) == Accepts(t, e)
    ensures Apply(PrintedTable(codec, t), Reprinted(codec, e)) == PrintedTable(codec, Apply(t, e))
  {
    match e
    case Insert(id, vector, content) =>
      VectorBackOk(codec, vector);
      if t.Present? {
        PrintedInsert(codec, t.store, Data(id, vector, content));
      }
    case Remove(id) =>
      if t.Present? {
        PrintedRemove(codec, t.store, id);
      }
    case Create(config) =>
      assert Reprinted(codec, e).Create? && Reprinted(codec, e).config.dim == config.dim;
    case Drop =>
  }

  lemma PrintedInsert(codec: Codec<real>, store: Records, d: Data)
    ensures PrintedRecords(codec, store[d.id := d]) ==
      PrintedRecords(codec, store)[d.id := d.(vector := VectorBack(codec, d.vector))]
  {}

  lemma PrintedRemove(codec: Codec<real>, store: Records, id: Id)
    ensures PrintedRecords(codec, store - {id}) == PrintedRecords(codec, store) - {id}
  {}

  lemma {:induction false} ApplyAllPrinted(codec: Codec<real>, t: Table, log: seq<Op>)
    requires CodecOk(codec) && AllPrintable(codec, log)
    ensures ApplyAll(PrintedTable(codec, t), ReprintedAll(codec, log)) == PrintedTable(codec, ApplyAll(t, log))
  {
    if log == [] {
    } else {
      var n := |log| - 1;
      ApplyAllPrinted(codec, t, log[..n]);
      assert ReprintedAll(codec, log)[..n] == ReprintedAll(codec, log[..n]);
      ApplyPrinted(codec, ApplyAll(t, log[..n]), log[n]);
    }
  }

  lemma PrefixPrinted(codec: Codec<real>, log: seq<Op>, n: nat)
    requires CodecOk(codec) && AllPrintable(codec, log) && n <= |log|
    ensures Prefix(ReprintedAll(codec, log), n) == PrintedTable(codec, Prefix(log, n))
    ensures n < |log| ==> Took(ReprintedAll(codec, log), n) == Took(log, n)
  {
    assert ReprintedAll(codec, log)[..n] == ReprintedAll(codec, log[..n]);
    ApplyAllPrinted(codec, Absent, log[..n]);
    if n < |log| {
      ApplyPrinted(codec, Prefix(log, n), log[n]);
    }
  }

  lemma {:induction false} KeptExact(codec: Codec<real>, log: seq<Op>)
    requires CodecOk(codec) && AllKept(codec, log)
    ensures ExactTable(codec, ApplyAll(Absent, log))
  {
    if log == [] {
    } else {
      var n := |log| - 1;
      KeptExact(codec, log[..n]);
      if log[n].Insert? {
        VectorBackOk(codec, log[n].vector);
      }
    }
  }
}
