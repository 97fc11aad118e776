/** One sync of the primary with its replicas (engine/src/replica/replica_manager.cc), as a function of the lines
    of the log, of what the replicas hold, and of which requests and answers arrive. */
module ReplicaSyncs {
  import opened Ranking
  import opened LogEntries
  import opened Checksums
  import opened Replay
  import opened Replication

  type Address = nat

  /** The offset that the primary keeps for a replica, and the table that the replica holds. */
  datatype Peer = Peer(offset: nat, table: Table)

  /** Whether the request of the `i`-th attempt for the `r`-th replica arrives, and whether the answer to the
      question for the checksum after it does. A request that arrives is answered. */
  datatype Network = Network(request: (nat, nat) -> bool, answer: (nat, nat) -> bool)

  const RETRIES: nat := 3

  ghost function TableChecksum(t: Table): nat {
    if t.Present? then Checksum(t.store) else 0
  }

  datatype Outcome = Outcome(peer: Peer, failed: bool)

  /** What one answered request makes of a replica. */
  ghost function Asked(lines: seq<Op>, p: Peer): Peer
    requires p.offset <= |lines|
  {
    var k := Accepted(p.table, lines[p.offset..]);
    Peer(p.offset + k, ApplyAll(p.table, lines[p.offset..][..k]))
  }

  /** One attempt for one replica, and whether it is the last one needed. */
  ghost function Attempt(lines: seq<Op>, sum: nat, net: Network, r: nat, i: nat, o: Outcome): (result: (Outcome, bool)) {
    var p := o.peer;
    if p.offset >= |lines| then (o, false)
    else if !net.request(r, i) then (Outcome(p, o.failed || i == RETRIES - 1), false)
    else
      var q := Asked(lines, p);
      if q.offset < |lines| then (Outcome(q, o.failed || i == RETRIES - 1), false)
      else if net.answer(r, i) && sum == TableChecksum(q.table) then (Outcome(q, o.failed), true)
      else (Outcome(q, true), false)
  }

  /** The attempts for one replica from the `i`-th on. */
  ghost function Attempts(lines: seq<Op>, sum: nat, net: Network, r: nat, i: nat, o: Outcome): Outcome
    decreases RETRIES + 1 - i
  {
    if i > RETRIES then o
    else
      var (o', done) := Attempt(lines, sum, net, r, i, o);
      if done then o' else Attempts(lines, sum, net, r, i + 1, o')
  }

  ghost predicate PeerOk(lines: seq<Op>, p: Peer) {
    HoldsPrefix(lines, p.offset, p.table)
  }

  /** Asked once, a replica stays in step, and gets to the end exactly when every entry from its offset on took
      effect on the primary. */
  lemma AskedOk(lines: seq<Op>, p: Peer)
    requires PeerOk(lines, p)
    ensures var q := Asked(lines, p);
      PeerOk(lines, q) && p.offset <= q.offset && (q.offset == |lines| <==> AllTake(lines, p.offset))
  {
    Answered(lines, p.offset, p.table);
    AnsweredReachesEnd(lines, p.offset);
  }

  /** What an attempt does, by cases. A failure once noted stays noted. */
  lemma AttemptOk(lines: seq<Op>, sum: nat, net: Network, r: nat, i: nat, o: Outcome)
    requires PeerOk(lines, o.peer)
    ensures var (o', done) := Attempt(lines, sum, net, r, i, o);
      && PeerOk(lines, o'.peer) && o.peer.offset <= o'.peer.offset && (o.failed ==> o'.failed)
      && (o'.peer.offset == |lines| ==> AllTake(lines, o.peer.offset))
      && (i == RETRIES - 1 && !o'.failed ==> o'.peer.offset == |lines|)
      && (done ==> o'.peer.offset == |lines|)
  {
    AskedOk(lines, o.peer);
    if o.peer.offset >= |lines| {
      assert AllTake(lines, o.peer.offset);
    }
  }

  /** Lost or answered, the replica stays in step with its offset. */
  lemma {:induction false} AttemptsKeep(lines: seq<Op>, sum: nat, net: Network, r: nat, i: nat, o: Outcome)
    requires PeerOk(lines, o.peer)
    ensures var o' := Attempts(lines, sum, net, r, i, o);
      PeerOk(lines, o'.peer) && o.peer.offset <= o'.peer.offset && (o.failed ==> o'.failed)
    decreases RETRIES + 1 - i
  {
    if i > RETRIES {
    } else {
      AttemptOk(lines, sum, net, r, i, o);
      AttemptsKeep(lines, sum, net, r, i + 1, Attempt(lines, sum, net, r, i, o).0);
    }
  }

  /** Nothing happens to a replica that has the whole log. */
  lemma {:induction false} AttemptsDone(lines: seq<Op>, sum: nat, net: Network, r: nat, i: nat, o: Outcome)
    requires o.peer.offset >= |lines|
    ensures Attempts(lines, sum, net, r, i, o) == o
    decreases RETRIES + 1 - i
  {
    if i > RETRIES {
    } else {
      AttemptsDone(lines, sum, net, r, i + 1, o);
    }
  }

  /** Whatever the network does: if no failure is noted, every entry from the offset on took effect and the
      replica has them all. */
  lemma {:induction false} UnfailedHasAll(lines: seq<Op>, sum: nat, net: Network, r: nat, i: nat, o: Outcome)
    requires PeerOk(lines, o.peer) && i < RETRIES
    ensures var o' := Attempts(lines, sum, net, r, i, o);
      !o'.failed ==> AllTake(lines, o.peer.offset) && o'.peer.offset == |lines|
    decreases RETRIES - i
  {
    var (next, done) := Attempt(lines, sum, net, r, i, o);
    AttemptOk(lines, sum, net, r, i, o);
    AttemptsKeep(lines, sum, net, r, i + 1, next);
    if next.peer.offset == |lines| {
      AttemptsDone(lines, sum, net, r, i + 1, next);
    } else if i + 1 < RETRIES {
      UnfailedHasAll(lines, sum, net, r, i + 1, next);
      if AllTake(lines, next.peer.offset) {
        TakesFrom(lines, o.peer, next.peer);
      }
    }
  }

  lemma TakesFrom(lines: seq<Op>, p: Peer, q: Peer)
    requires PeerOk(lines, q) && AllTake(lines, q.offset)
    ensures AllTake(lines, p.offset)
  {
    assert forall i :: 0 <= i < q.offset ==> Took(lines, i);
  }

  /** If everything arrives, a failure is noted exactly when an entry from the offset on had no effect on the
      primary, provided that the whole log gives the replica the checksum that the primary has. */
  lemma ReliableAttempts(lines: seq<Op>, sum: nat, net: Network, r: nat, p: Peer)
    requires PeerOk(lines, p) && (forall i :: net.request(r, i) && net.answer(r, i))
    requires sum == TableChecksum(Prefix(lines, |lines|))
    ensures Attempts(lines, sum, net, r, 0, Outcome(p, false)).failed <==> !AllTake(lines, p.offset)
  {
    UnfailedHasAll(lines, sum, net, r, 0, Outcome(p, false));
    if AllTake(lines, p.offset) {
      if p.offset >= |lines| {
        AttemptsDone(lines, sum, net, r, 0, Outcome(p, false));
      } else {
        AskedOk(lines, p);
        assert Attempt(lines, sum, net, r, 0, Outcome(p, false)) == (Outcome(Asked(lines, p), false), true);
      }
    }
  }

  // ----- exactly what the attempts do

  /** Asked again, a replica that stopped before the end stops there again. */
  lemma AskedAgain(lines: seq<Op>, p: Peer)
    requires PeerOk(lines, p) && Asked(lines, p).offset < |lines|
    ensures var q := Asked(lines, p); Asked(lines, q) == q && !AllTake(lines, q.offset)
  {
    AskedOk(lines, p);
    Answered(lines, p.offset, p.table);
    RefusedSame(lines, Asked(lines, p));
  }

  lemma RefusedSame(lines: seq<Op>, q: Peer)
    requires PeerOk(lines, q) && q.offset < |lines| && !Took(lines, q.offset)
    ensures Asked(lines, q) == q
  {
    assert lines[q.offset..][0] == lines[q.offset];
    assert lines[q.offset..][..0] == [];
  }

  /** Asked once, a replica moves exactly if the entry at its offset took effect on the primary. */
  lemma AskedMoves(lines: seq<Op>, p: Peer)
    requires PeerOk(lines, p) && p.offset < |lines|
    ensures Asked(lines, p).offset > p.offset <==> Took(lines, p.offset)
  {
    assert lines[p.offset..][0] == lines[p.offset];
  }

  lemma AskedAtEnd(lines: seq<Op>, p: Peer)
    requires p.offset == |lines|
    ensures Asked(lines, p) == p
  {
    assert lines[p.offset..] == [] && lines[p.offset..][..0] == [];
  }

  /** While a replica is stuck, attempts change nothing, and the third one notes a failure. */
  lemma {:induction false} AttemptsStuck(lines: seq<Op>, sum: nat, net: Network, r: nat, i: nat, o: Outcome)
    requires o.peer.offset < |lines| && Asked(lines, o.peer) == o.peer
    ensures Attempts(lines, sum, net, r, i, o) == Outcome(o.peer, o.failed || i <= 2)
    decreases RETRIES + 1 - i
  {
    if i > RETRIES {
    } else {
      AttemptsStuck(lines, sum, net, r, i + 1, Attempt(lines, sum, net, r, i, o).0);
    }
  }

  /** Some request of the `i`-th to the `j`-th attempt arrives. */
  predicate Arrives(net: Network, r: nat, i: nat, j: nat) {
    exists k :: i <= k <= j && net.request(r, k)
  }

  /** The first request to arrive from the `i`-th attempt on is that of the `k`-th. */
  predicate FirstArrives(net: Network, r: nat, i: nat, k: nat) {
    i <= k && net.request(r, k) && forall j :: i <= j < k ==> !net.request(r, j)
  }

  lemma ArrivesLater(net: Network, r: nat, i: nat, j: nat)
    requires i <= j
    ensures Arrives(net, r, i, j) <==> net.request(r, i) || Arrives(net, r, i + 1, j)
  {}

  /** The first of the four requests to arrive does all there is to do: an answer to any of them moves the offset, and
      later ones add nothing. */
  lemma {:induction false} AttemptsPeer(lines: seq<Op>, sum: nat, net: Network, r: nat, i: nat, p: Peer, failed: bool)
    requires PeerOk(lines, p) && i <= 3
    ensures Attempts(lines, sum, net, r, i, Outcome(p, failed)).peer ==
      if Arrives(net, r, i, 3) then Asked(lines, p) else p
    decreases 3 - i
  {
    var o := Outcome(p, failed);
    ArrivesLater(net, r, i, 3);
    if p.offset >= |lines| {
      AttemptsDone(lines, sum, net, r, i, o);
      AskedAtEnd(lines, p);
    } else if net.request(r, i) {
      AskedPeer(lines, sum, net, r, i, o);
    } else if i < 3 {
      AttemptsPeer(lines, sum, net, r, i + 1, p, failed || i == 2);
    } else {
      assert Attempts(lines, sum, net, r, 4, Outcome(p, failed)) == Outcome(p, failed);
    }
  }

  lemma AskedPeer(lines: seq<Op>, sum: nat, net: Network, r: nat, i: nat, o: Outcome)
    requires PeerOk(lines, o.peer) && o.peer.offset < |lines| && i <= 3 && net.request(r, i)
    ensures Attempts(lines, sum, net, r, i, o).peer == Asked(lines, o.peer)
    ensures var fine := !o.failed && AllTake(lines, o.peer.offset) &&
        net.answer(r, i) && sum == TableChecksum(Asked(lines, o.peer).table);
      i <= 2 ==> (Attempts(lines, sum, net, r, i, o).failed <==> !fine)
  {
    var q := Asked(lines, o.peer);
    AskedOk(lines, o.peer);
    var (next, done) := Attempt(lines, sum, net, r, i, o);
    if q.offset < |lines| {
      AskedAgain(lines, o.peer);
      AttemptsStuck(lines, sum, net, r, i + 1, next);
    } else if !done {
      AttemptsDone(lines, sum, net, r, i + 1, next);
    }
  }

  /** Whatever the network does, a replica that is behind gives no failure exactly if everything from its offset on took
      effect, one of the first three requests arrives, and after the first that does, the answer with its checksum
      arrives too and is the right one. In particular a failure is noted if the first three requests are all lost. */
  lemma {:induction false} AttemptsFail(lines: seq<Op>, sum: nat, net: Network, r: nat, i: nat, p: Peer, failed: bool)
    requires PeerOk(lines, p) && p.offset < |lines| && i <= 2
    ensures !Attempts(lines, sum, net, r, i, Outcome(p, failed)).failed <==>
      !failed && AllTake(lines, p.offset) && sum == TableChecksum(Asked(lines, p).table) &&
      exists k :: k <= 2 && FirstArrives(net, r, i, k) && net.answer(r, k)
    decreases 3 - i
  {
    var o := Outcome(p, failed);
    if net.request(r, i) {
      AskedPeer(lines, sum, net, r, i, o);
      assert net.answer(r, i) ==> FirstArrives(net, r, i, i);
      assert forall k :: FirstArrives(net, r, i, k) ==> k == i;
    } else if i < 2 {
      AttemptsFail(lines, sum, net, r, i + 1, p, failed);
      assert forall k :: FirstArrives(net, r, i, k) <==> FirstArrives(net, r, i + 1, k);
    } else {
      AttemptsKeep(lines, sum, net, r, 3, Outcome(p, true));
      assert forall k :: FirstArrives(net, r, 2, k) ==> k > 2;
    }
  }

  // ----- all replicas

  type Peers = map<Address, Peer>

  ghost predicate PeersOk(lines: seq<Op>, replicas: seq<Address>, peers: Peers) {
    forall r :: 0 <= r < |replicas| ==> replicas[r] in peers && PeerOk(lines, peers[replicas[r]])
  }

  /** The replicas from the `r`-th on, one after another. */
  ghost function SyncFrom(lines: seq<Op>, sum: nat, net: Network, replicas: seq<Address>, r: nat, peers: Peers,
      failed: bool): (result: (Peers, bool))
    decreases |replicas| - r
  {
    if r >= |replicas| || replicas[r] !in peers then (peers, failed)
    else
      var o := Attempts(lines, sum, net, r, 0, Outcome(peers[replicas[r]], false));
      SyncFrom(lines, sum, net, replicas, r + 1, peers[replicas[r] := o.peer], failed || o.failed)
  }

  lemma SyncNext(lines: seq<Op>, sum: nat, net: Network, replicas: seq<Address>, r: nat, peers: Peers, failed: bool)
    requires r < |replicas| && replicas[r] in peers
    ensures var o := Attempts(lines, sum, net, r, 0, Outcome(peers[replicas[r]], false));
      SyncFrom(lines, sum, net, replicas, r, peers, failed) ==
        SyncFrom(lines, sum, net, replicas, r + 1, peers[replicas[r] := o.peer], failed || o.failed)
  {}

  lemma {:induction false} SyncKeeps(lines: seq<Op>, sum: nat, net: Network, replicas: seq<Address>, r: nat, peers: Peers,
      failed: bool)
    requires PeersOk(lines, replicas, peers)
    ensures var (peers', failed') := SyncFrom(lines, sum, net, replicas, r, peers, failed);
      && PeersOk(lines, replicas, peers') && (failed ==> failed')
      && forall a :: a in peers ==> a in peers' && peers[a].offset <= peers'[a].offset
    decreases |replicas| - r
  {
    if r >= |replicas| {
    } else {
      var o := Attempts(lines, sum, net, r, 0, Outcome(peers[replicas[r]], false));
      AttemptsKeep(lines, sum, net, r, 0, Outcome(peers[replicas[r]], false));
      SyncKeeps(lines, sum, net, replicas, r + 1, peers[replicas[r] := o.peer], failed || o.failed);
    }
  }

  /** Whatever the network does: if the sync notes no failure, every replica has the whole log. */
  lemma {:induction false} UnfailedSync(lines: seq<Op>, sum: nat, net: Network, replicas: seq<Address>, r: nat,
      peers: Peers, failed: bool, k: nat)
    requires PeersOk(lines, replicas, peers) && r <= k < |replicas|
    ensures var (peers', failed') := SyncFrom(lines, sum, net, replicas, r, peers, failed);
      && (!failed' ==> AllTake(lines, peers[replicas[k]].offset))
      && (!failed' ==> replicas[k] in peers' && peers'[replicas[k]].offset == |lines|)
    decreases |replicas| - r
  {
    var a := replicas[r];
    var o := Attempts(lines, sum, net, r, 0, Outcome(peers[a], false));
    var next := peers[a := o.peer];
    AttemptsKeep(lines, sum, net, r, 0, Outcome(peers[a], false));
    UnfailedHasAll(lines, sum, net, r, 0, Outcome(peers[a], false));
    SyncKeeps(lines, sum, net, replicas, r + 1, next, failed || o.failed);
    if k == r {
    } else {
      UnfailedSync(lines, sum, net, replicas, r + 1, next, failed || o.failed, k);
    }
  }

  /** Some entry after the offset of one of the replicas from `r` on had no effect on the primary. */
  ghost predicate SomeStuck(lines: seq<Op>, replicas: seq<Address>, r: nat, peers: Peers) {
    exists k :: r <= k < |replicas| && replicas[k] in peers && !AllTake(lines, peers[replicas[k]].offset)
  }

  /** If everything arrives, the sync notes a failure exactly when such an entry exists. */
  lemma {:induction false} ReliableSync(lines: seq<Op>, sum: nat, net: Network, replicas: seq<Address>, r: nat, peers: Peers,
      failed: bool)
    requires PeersOk(lines, replicas, peers) && r <= |replicas|
    requires forall k, i :: net.request(k, i) && net.answer(k, i)
    requires sum == TableChecksum(Prefix(lines, |lines|))
    ensures SyncFrom(lines, sum, net, replicas, r, peers, failed).1 <==> failed || SomeStuck(lines, replicas, r, peers)
    decreases |replicas| - r
  {
    if r == |replicas| {
    } else {
      var a := replicas[r];
      var o := Attempts(lines, sum, net, r, 0, Outcome(peers[a], false));
      var next := peers[a := o.peer];
      AttemptsKeep(lines, sum, net, r, 0, Outcome(peers[a], false));
      ReliableAttempts(lines, sum, net, r, peers[a]);
      ReliableSync(lines, sum, net, replicas, r + 1, next, failed || o.failed);
      StuckNext(lines, replicas, r, peers, o.peer);
    }
  }

  lemma StuckNext(lines: seq<Op>, replicas: seq<Address>, r: nat, peers: Peers, q: Peer)
    requires r < |replicas| && forall k :: 0 <= k < |replicas| ==> replicas[k] in peers
    requires peers[replicas[r]].offset <= q.offset
    ensures var next := peers[replicas[r] := q];
      SomeStuck(lines, replicas, r, peers) <==>
        !AllTake(lines, peers[replicas[r]].offset) || SomeStuck(lines, replicas, r + 1, next)
  {
    var next := peers[replicas[r] := q];
    if SomeStuck(lines, replicas, r, peers) && AllTake(lines, peers[replicas[r]].offset) {
      var k :| r <= k < |replicas| && replicas[k] in peers && !AllTake(lines, peers[replicas[k]].offset);
      assert replicas[k] != replicas[r];
      assert next[replicas[k]] == peers[replicas[k]];
    }
    if SomeStuck(lines, replicas, r + 1, next) {
      var k :| r + 1 <= k < |replicas| && replicas[k] in next && !AllTake(lines, next[replicas[k]].offset);
      assert peers[replicas[k]].offset <= next[replicas[k]].offset;
      assert !AllTake(lines, peers[replicas[k]].offset);
    }
  }

  /** The offset of a replica never passes an entry that had no effect on the primary. */
  lemma FailedOperationStops(lines: seq<Op>, p: Peer, i: nat)
    requires PeerOk(lines, p) && i < |lines| && !Took(lines, i)
    ensures p.offset <= i
  {}

  /** Whatever the network does: while an entry that had no effect follows the offset of a replica, every sync
      notes a failure. */
  lemma StuckForever(lines: seq<Op>, sum: nat, net: Network, replicas: seq<Address>, peers: Peers)
    requires PeersOk(lines, replicas, peers) && SomeStuck(lines, replicas, 0, peers)
    ensures var (peers', failed') := SyncFrom(lines, sum, net, replicas, 0, peers, false);
      failed' && SomeStuck(lines, replicas, 0, peers')
  {
    var k :| 0 <= k < |replicas| && replicas[k] in peers && !AllTake(lines, peers[replicas[k]].offset);
    UnfailedSync(lines, sum, net, replicas, 0, peers, false, k);
    SyncKeeps(lines, sum, net, replicas, 0, peers, false);
    var i :| peers[replicas[k]].offset <= i < |lines| && !Took(lines, i);
    var peers' := SyncFrom(lines, sum, net, replicas, 0, peers, false).0;
    assert PeerOk(lines, peers'[replicas[k]]);
    assert !AllTake(lines, peers'[replicas[k]].offset);
  }

  /** Later lines do not help. */
  lemma StuckLater(lines: seq<Op>, more: seq<Op>, replicas: seq<Address>, peers: Peers)
    requires SomeStuck(lines, replicas, 0, peers)
    ensures SomeStuck(lines + more, replicas, 0, peers)
  {
    var k :| 0 <= k < |replicas| && replicas[k] in peers && !AllTake(lines, peers[replicas[k]].offset);
    var i :| peers[replicas[k]].offset <= i < |lines| && !Took(lines, i);
    TakesAgain(lines, more, i);
    assert !AllTake(lines + more, peers[replicas[k]].offset);
  }

  /** An input that does it: one id inserted twice, then another. */
  lemma RepeatedInsertionSticks(config: TableConfig<real>, a: Id, b: Id, vector: Vector, content: string)
    requires |vector| == Dimension(config) && a != b
    ensures var e: Op := Entry.Insert(a, vector, content);
      var log := [Create(config), e, e, Entry.Insert(b, vector, content)];
      Took(log, 0) && Took(log, 1) && !Took(log, 2) && Took(log, 3)
  {
    var e: Op := Entry.Insert(a, vector, content);
    var log := [Create(config), e, e, Entry.Insert(b, vector, content)];
    assert log[..0] == [];
    PrefixNext(log, 0);
    PrefixNext(log, 1);
    PrefixNext(log, 2);
  }
}
