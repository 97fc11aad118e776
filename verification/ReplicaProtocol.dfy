/** The protocol of the primary and its replicas with client writes in between
    (engine/src/replica/replica_manager.cc): a request carries the log as it was when the request was built, and
    the offset moves only when the answer arrives. The log is here what its lines say when they are read back, so
    appending one operation may append several entries. */
module ReplicaProtocol {
  import opened LogEntries
  import opened Replay
  import opened Replication

  /** The request on its way to one replica, or the answer on its way back. */
  datatype Flight = Nothing | Sent(entries: seq<Op>) | Answer(successful: nat)

  datatype Node = Node(offset: nat, table: Table, flight: Flight)

  datatype State = State(log: seq<Op>, nodes: seq<Node>)

  datatype Step =
    | Append(op: Op)
    | Send(r: nat)
    | LoseRequest(r: nat)
    | Process(r: nat)
    | Receive(r: nat)
    | LoseAnswer(r: nat)

  predicate Init(s: State) {
    s.log == [] && forall r :: 0 <= r < |s.nodes| ==> s.nodes[r] == Node(0, Absent, Nothing)
  }

  predicate Enabled(s: State, step: Step) {
    match step
    case Append(_) => true
    case Send(r) => r < |s.nodes| && s.nodes[r].flight == Nothing && s.nodes[r].offset <= |s.log|
    case LoseRequest(r) => r < |s.nodes| && s.nodes[r].flight.Sent?
    case Process(r) => r < |s.nodes| && s.nodes[r].flight.Sent?
    case Receive(r) => r < |s.nodes| && s.nodes[r].flight.Answer?
    case LoseAnswer(r) => r < |s.nodes| && s.nodes[r].flight.Answer?
  }

  function NextNode(log: seq<Op>, n: Node, step: Step): Node {
    match step
    case Append(_) => n
    case Send(_) => if n.offset <= |log| then n.(flight := Sent(log[n.offset..])) else n
    case LoseRequest(_) => n.(flight := Nothing)
    case Process(_) =>
      if n.flight.Sent? then
        var k := Accepted(n.table, n.flight.entries);
        n.(table := ApplyAll(n.table, n.flight.entries[..k]), flight := Answer(k))
      else n
    case Receive(_) => if n.flight.Answer? then n.(offset := n.offset + n.flight.successful, flight := Nothing) else n
    case LoseAnswer(_) => n.(flight := Nothing)
  }

  function Next(s: State, step: Step): State
    requires Enabled(s, step)
  {
    if step.Append? then s.(log := s.log + [step.op])
    else s.(nodes := s.nodes[step.r := NextNode(s.log, s.nodes[step.r], step)])
  }

  /** Between requests, and while one is still on its way, the replica holds the prefix of its offset; once
      it was processed, the prefix that the answer announces. */
  ghost predicate NodeOk(log: seq<Op>, n: Node) {
    match n.flight
    case Nothing => HoldsPrefix(log, n.offset, n.table)
    case Sent(entries) =>
      && HoldsPrefix(log, n.offset, n.table)
      && n.offset + |entries| <= |log| && entries == log[n.offset..n.offset + |entries|]
    case Answer(k) => HoldsPrefix(log, n.offset + k, n.table)
  }

  ghost predicate StateOk(s: State) {
    forall r :: 0 <= r < |s.nodes| ==> NodeOk(s.log, s.nodes[r])
  }

  lemma AppendKeeps(log: seq<Op>, e: Op, n: Node)
    requires NodeOk(log, n)
    ensures NodeOk(log + [e], n)
  {
    LaterLines(log, [e], n.offset + if n.flight.Answer? then n.flight.successful else 0, n.table);
  }

  lemma ProcessKeeps(log: seq<Op>, n: Node)
    requires NodeOk(log, n) && n.flight.Sent?
    ensures NodeOk(log, NextNode(log, n, Process(0)))
  {
    var end := n.offset + |n.flight.entries|;
    AcceptedPrefix(log, n.offset, end);
    SyncedPrefix(log, n.offset, end);
  }

  /** Losing an answer does no harm when the entries that it counts leave the table as it was, in particular
      when it counts none. */
  ghost predicate HarmlessLoss(log: seq<Op>, n: Node)
    requires n.flight.Answer?
  {
    n.offset + n.flight.successful <= |log| && Prefix(log, n.offset) == Prefix(log, n.offset + n.flight.successful)
  }

  lemma LossKeepsIffHarmless(log: seq<Op>, n: Node)
    requires NodeOk(log, n) && n.flight.Answer?
    ensures NodeOk(log, NextNode(log, n, LoseAnswer(0))) <==> HarmlessLoss(log, n)
  {}

  lemma AcceptedChanges(t: Table, e: Op)
    requires Accepts(t, e)
    ensures Apply(t, e) != t
  {}

  /** The condition is exact, whatever is logged between the processing of a request and the loss of its answer:
      the loss does no harm if and only if the processing left the table as it was. So it does none if nothing was
      counted, and always does some if one entry was. */
  lemma LossKeepsIffUnchanged(log: seq<Op>, n: Node, more: seq<Op>)
    requires NodeOk(log, n) && n.flight.Sent?
    ensures var m := NextNode(log, n, Process(0));
      && (NodeOk(log + more, NextNode(log + more, m, LoseAnswer(0))) <==> m.table == n.table)
      && (HarmlessLoss(log + more, m) <==> m.table == n.table)
      && (m.flight.successful == 0 ==> m.table == n.table) && (m.flight.successful == 1 ==> m.table != n.table)
  {
    var m := NextNode(log, n, Process(0));
    ProcessKeeps(log, n);
    LaterLines(log, more, n.offset + m.flight.successful, m.table);
    LaterLines(log, more, n.offset, n.table);
    LossKeepsIffHarmless(log + more, m);
    if m.flight.successful == 1 {
      OneCounted(n.table, n.flight.entries);
    }
  }

  lemma OneCounted(t: Table, entries: seq<Op>)
    requires Accepted(t, entries) == 1
    ensures ApplyAll(t, entries[..1]) != t
  {
    assert entries[..1][..0] == [] && ApplyAll(t, entries[..1]) == Apply(t, entries[0]);
    AcceptedChanges(t, entries[0]);
  }

  predicate LosesAnswer(s: State, step: Step) {
    step.LoseAnswer? && Enabled(s, step)
  }

  lemma NextOk(s: State, step: Step)
    requires StateOk(s) && Enabled(s, step)
    requires LosesAnswer(s, step) ==> HarmlessLoss(s.log, s.nodes[step.r])
    ensures StateOk(Next(s, step))
  {
    var t := Next(s, step);
    forall r | 0 <= r < |t.nodes|
      ensures NodeOk(t.log, t.nodes[r])
    {
      assert NodeOk(s.log, s.nodes[r]);
      match step
      case Append(e) => AppendKeeps(s.log, e, s.nodes[r]);
      case Process(q) =>
        if q == r {
          ProcessKeeps(s.log, s.nodes[r]);
        }
      case LoseAnswer(q) =>
        if q == r {
          LossKeepsIffHarmless(s.log, s.nodes[r]);
        }
      case _ =>
    }
  }

  predicate Follows(states: seq<State>, steps: seq<Step>, i: nat)
    requires i < |steps| && |states| == |steps| + 1
  {
    Enabled(states[i], steps[i]) && states[i + 1] == Next(states[i], steps[i])
  }

  ghost predicate Run(states: seq<State>, steps: seq<Step>) {
    && |states| == |steps| + 1 && Init(states[0])
    && forall i :: 0 <= i < |steps| ==> Follows(states, steps, i)
  }

  /** After any interleaving of writes, lost requests, answered ones, and harmless losses of answers, each
      replica with nothing in flight holds the replay of exactly the first `offset` entries of the log, all of
      which took effect. */
  lemma {:induction false} ReplicaSafety(states: seq<State>, steps: seq<Step>, i: nat)
    requires Run(states, steps) && i < |states|
    requires forall j :: 0 <= j < |steps| && LosesAnswer(states[j], steps[j]) ==>
      HarmlessLoss(states[j].log, states[j].nodes[steps[j].r])
    ensures StateOk(states[i])
    ensures var s := states[i]; forall r :: 0 <= r < |s.nodes| && s.nodes[r].flight == Nothing ==>
      HoldsPrefix(s.log, s.nodes[r].offset, s.nodes[r].table)
  {
    if i == 0 {
    } else {
      ReplicaSafety(states, steps, i - 1);
      assert Follows(states, steps, i - 1);
      NextOk(states[i - 1], steps[i - 1]);
    }
    assert forall r :: 0 <= r < |states[i].nodes| ==> NodeOk(states[i].log, states[i].nodes[r]);
  }

  // ----- after a harmful loss

  /** The replica refuses the entry at its offset, which is the first of every request. */
  predicate Refuses(log: seq<Op>, n: Node) {
    n.offset < |log| && !Accepts(n.table, log[n.offset])
  }

  /** Requests under way start with the refused entry, and answers under way count nothing. */
  ghost predicate Stuck(log: seq<Op>, n: Node) {
    && Refuses(log, n)
    && (n.flight.Sent? && n.flight.entries != [] ==> n.flight.entries[0] == log[n.offset])
    && (n.flight.Answer? ==> n.flight.successful == 0)
  }

  lemma StuckNext(s: State, step: Step, r: nat)
    requires r < |s.nodes| && Stuck(s.log, s.nodes[r]) && Enabled(s, step)
    ensures var t := Next(s, step);
      && |t.nodes| == |s.nodes| && Stuck(t.log, t.nodes[r])
      && t.nodes[r].offset == s.nodes[r].offset && t.nodes[r].table == s.nodes[r].table
  {}

  /** From then on, in every continuation, neither the replica nor its offset ever changes. */
  lemma {:induction false} StuckForever(states: seq<State>, steps: seq<Step>, i: nat, j: nat, r: nat)
    requires Run(states, steps) && i <= j < |states| && r < |states[i].nodes| && Stuck(states[i].log, states[i].nodes[r])
    ensures r < |states[j].nodes| && Stuck(states[j].log, states[j].nodes[r])
    ensures states[j].nodes[r].offset == states[i].nodes[r].offset && states[j].nodes[r].table == states[i].nodes[r].table
    decreases j
  {
    if j == i {
    } else {
      StuckForever(states, steps, i, j - 1, r);
      assert Follows(states, steps, j - 1);
      StuckNext(states[j - 1], steps[j - 1], r);
    }
  }

  /** A replica with nothing in flight and something to get moves on with the next answered request exactly when
      it does not refuse the first entry sent again. */
  lemma MovesIffAccepted(s: State, r: nat)
    requires r < |s.nodes| && s.nodes[r].flight == Nothing && s.nodes[r].offset < |s.log|
    ensures var t := Next(Next(Next(s, Send(r)), Process(r)), Receive(r));
      t.nodes[r].offset > s.nodes[r].offset <==> !Refuses(s.log, s.nodes[r])
  {
    var n := s.nodes[r];
    assert s.log[n.offset..][0] == s.log[n.offset];
    var n1 := NextNode(s.log, n, Send(r));
    var n2 := NextNode(s.log, n1, Process(r));
    assert n2.flight == Answer(Accepted(n.table, s.log[n.offset..]));
  }

  /** A run that does it: the answer to the first request is lost after the table was created there. The replica
      then holds more than its offset says, and it is stuck. */
  lemma LostAnswerBreaksSafety(config: TableConfig<real>)
    ensures exists states: seq<State>, steps: seq<Step> :: Breaks(states, steps)
  {
    var e: Op := Create(config);
    var table := Present(Dimension(config), map[]);
    var s0 := State([], [Node(0, Absent, Nothing)]);
    var s1 := State([e], [Node(0, Absent, Nothing)]);
    var s2 := State([e], [Node(0, Absent, Sent([e]))]);
    var s3 := State([e], [Node(0, table, Answer(1))]);
    var s4 := State([e], [Node(0, table, Nothing)]);
    var states, steps := OneMore([s0], [], s0, Append(e), s1);
    assert [e][0..] == [e];
    states, steps := OneMore(states, steps, s1, Send(0), s2);
    CreationProcessed(config);
    states, steps := OneMore(states, steps, s2, Process(0), s3);
    states, steps := OneMore(states, steps, s3, LoseAnswer(0), s4);
    assert [e][..0] == [];
    assert Breaks(states, steps);
  }

  ghost predicate Breaks(states: seq<State>, steps: seq<Step>) {
    && Run(states, steps)
    && var s := states[|steps|];
       && |s.nodes| == 1 && s.nodes[0].flight == Nothing && Stuck(s.log, s.nodes[0])
       && !HoldsPrefix(s.log, s.nodes[0].offset, s.nodes[0].table)
  }

  lemma CreationProcessed(config: TableConfig<real>)
    ensures var e: Op := Create(config);
      Accepted(Absent, [e]) == 1 && ApplyAll(Absent, [e][..1]) == Present(Dimension(config), map[])
  {
    var e: Op := Create(config);
    assert [e][1..] == [] && [e][..1] == [e] && [e][..0] == [];
  }

  /** A run that ends in this state, made one step longer. */
  lemma OneMore(states: seq<State>, steps: seq<Step>, s: State, step: Step, t: State)
      returns (states': seq<State>, steps': seq<Step>)
    requires Run(states, steps) && states[|steps|] == s && Enabled(s, step) && t == Next(s, step)
    ensures Run(states', steps') && states'[|steps'|] == t
  {
    states', steps' := states + [t], steps + [step];
    forall i | 0 <= i < |steps'|
      ensures Follows(states', steps', i)
    {
      assert i < |steps| ==> Follows(states, steps, i);
    }
  }
}
