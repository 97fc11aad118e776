/** Small tables over whole runs. As long as a table never has more than `m0 + 1` nodes, soft-removed ones included, and
    an insertion looks at enough of them, any two active nodes are neighbours at level 0 after any insertions, removals,
    cleanups and rebuilds, and every search with room for them is exact. */
module HnswComplete {
  import opened Ranking
  import opened HnswGraph
  import opened BeamSearch
  import opened HnswState
  import opened HnswRuns
  import opened HnswMeaning
  import opened HnswExact
  import opened FlatIndexes

  /** Any two active nodes are neighbours at level 0. */
  ghost predicate Complete(g: Graph) {
    forall a, b :: Active(g, a) && Active(g, b) && a != b ==> b in Nbrs(g, a, 0)
  }

  /** No insertion into a table of at most `n` nodes, itself included, prunes or overlooks one. */
  predicate Roomy(cfg: Config, n: nat) {
    n <= cfg.m0 + 1 && n <= cfg.efConstruction + 1
  }

  // ----- searches

  /** In a complete graph a search visits exactly the active nodes. */
  lemma VisitsActive(cfg: Config, g: Graph, query: Vector, entry: Id, ef: nat)
    requires Complete(g) && Active(g, entry) && ef > 0
    ensures Visited(cfg, g, query, entry, ef, 0) == ActiveIds(g)
  {
    EntryExpanded(cfg, g, query, entry, ef, 0);
    SearchLevelMeaning(cfg, g, query, entry, ef, 0);
    forall a | a in ActiveIds(g)
      ensures a in Visited(cfg, g, query, entry, ef, 0)
    {
      assert Active(g, a) && (a != entry ==> a in Nbrs(g, entry, 0));
    }
  }

  lemma FindsActive(cfg: Config, g: Graph, query: Vector, entry: Id, ef: nat)
    requires Complete(g) && Active(g, entry) && ef >= |ActiveIds(g)| && ef > 0
    ensures SearchLevel(cfg, g, query, entry, ef, 0) == Ids(Rank(Scores(cfg, g, query, ActiveIds(g))))
  {
    VisitsActive(cfg, g, query, entry, ef);
    FinalFound(cfg, g, query, entry, ef, 0);
    ScoresSize(cfg, g, query, ActiveIds(g));
    SubsetSize(Final(cfg, g, query, entry, ef, 0).top, Scores(cfg, g, query, ActiveIds(g)));
  }

  lemma ActiveScores(cfg: Config, g: Graph, query: Vector)
    ensures Scored(FlatConfig(cfg.dim, cfg.dist), ActiveVectors(g), query, ActiveVectors(g).Keys) ==
      Scores(cfg, g, query, ActiveIds(g))
  {
    assert ActiveVectors(g).Keys == ActiveIds(g);
  }

  /** Exact over the active nodes, whatever soft-removed nodes are still there. */
  lemma CompleteExact(cfg: Config, s: State, query: Vector, k: nat, ef: nat)
    requires StateOk(cfg, s) && Complete(s.nodes) && |query| == cfg.dim && ef >= |ActiveIds(s.nodes)|
    ensures SearchResult(cfg, s, query, k, ef) ==
      Nearest(FlatConfig(cfg.dim, cfg.dist), ActiveVectors(s.nodes), query, k)
  {
    var g := s.nodes;
    ActiveScores(cfg, g, query);
    if s.entry.Some? {
      assert s.entry.value in ActiveIds(g);
      SubsetSize({s.entry.value}, ActiveIds(g));
      var route := SearchRoute(cfg, s, query, k, ef);
      RouteCloser(cfg, g, query, ef, s.maxLevel, 0, route, 0, |route| - 1);
      FindsActive(cfg, g, query, route[|route| - 1], ef);
      TakeIds(Rank(Scores(cfg, g, query, ActiveIds(g))), k);
    } else {
      ScoresSize(cfg, g, query, {});
    }
  }

  // ----- insertion

  /** The new node is offered every other active node, and nothing is pruned. */
  lemma ConnectAtComplete(cfg: Config, g: Graph, id: Id, vector: Vector, entry: Id)
    requires Connecting(cfg, g, id, entry, 0) && Active(g, id) && Roomy(cfg, |g.Keys|)
    requires forall a, b :: Active(g, a) && Active(g, b) && a != b && a != id && b != id ==> b in Nbrs(g, a, 0)
    ensures Complete(ConnectAt(cfg, g, id, vector, entry, 0))
  {
    var others := ActiveIds(g) - {id};
    var ns := Chosen(cfg, g, vector, entry, 0);
    OthersFit(g, id, cfg.m0);
    OthersFit(g, id, cfg.efConstruction);
    SubsetSize({entry}, others);
    VisitsOthers(cfg, g, id, vector, entry);
    ChosenOffer(cfg, g, vector, entry, 0);
    SubsetSize(Elems(ns), others);
    assert Elems(ns) == others;
    ConnectAllGrows(cfg, g, id, ns);
    LinkedComplete(g, ConnectAt(cfg, g, id, vector, entry, 0), id, ns);
  }

  lemma OthersFit(g: Graph, id: Id, m0: nat)
    requires id in g && |g.Keys| <= m0 + 1
    ensures |ActiveIds(g) - {id}| <= m0
  {
    SubsetSize(ActiveIds(g) - {id}, g.Keys - {id});
    assert g.Keys == (g.Keys - {id}) + {id};
  }

  lemma VisitsOthers(cfg: Config, g: Graph, id: Id, vector: Vector, entry: Id)
    requires Connecting(cfg, g, id, entry, 0) && cfg.efConstruction > 0
    requires forall a, b :: Active(g, a) && Active(g, b) && a != b && a != id && b != id ==> b in Nbrs(g, a, 0)
    ensures Visited(cfg, g, vector, entry, cfg.efConstruction, 0) == ActiveIds(g) - {id}
  {
    var visited := Visited(cfg, g, vector, entry, cfg.efConstruction, 0);
    AboveClosed(g, 0, {id});
    VisitedReachable(cfg, g, vector, entry, cfg.efConstruction, 0, Above(g, 0, {id}));
    assert visited <= ActiveIds(g) - {id};
    assert entry in visited by { SearchLevelMeaning(cfg, g, vector, entry, cfg.efConstruction, 0); }
    EntryExpanded(cfg, g, vector, entry, cfg.efConstruction, 0);
    assert Active(g, entry) && entry != id;
    forall a | a in ActiveIds(g) - {id}
      ensures a in visited
    {
      assert Active(g, a) && (a != entry ==> a in Nbrs(g, entry, 0));
    }
  }

  lemma LinkedComplete(g: Graph, h: Graph, id: Id, ns: seq<Id>)
    requires Grows(g, h) && Elems(ns) == ActiveIds(g) - {id}
    requires forall a, b :: Active(g, a) && Active(g, b) && a != b && a != id && b != id ==> b in Nbrs(g, a, 0)
    requires forall n :: n in ns ==> n in Nbrs(h, id, 0) && id in Nbrs(h, n, 0)
    ensures Complete(h)
  {
    forall a, b | Active(h, a) && Active(h, b) && a != b
      ensures b in Nbrs(h, a, 0)
    {
      assert Active(g, a) && Active(g, b);
      if a == id {
        assert b in Elems(ns);
      } else if b == id {
        assert a in Elems(ns);
      } else {
        assert b in Nbrs(g, a, 0) && Nbrs(g, a, 0) <= Nbrs(h, a, 0);
      }
    }
  }

  lemma InsertComplete(cfg: Config, s: State, id: Id, vector: Vector)
    requires StateOk(cfg, s) && Complete(s.nodes)
    requires Roomy(cfg, |InsertResult(cfg, s, id, vector).nodes.Keys|)
    ensures Complete(InsertResult(cfg, s, id, vector).nodes)
  {
    if |vector| == cfg.dim && id !in s.nodes {
      InsertAdds(cfg, s, id, vector);
      if s.entry.Some? {
        var entry, h0 := InsertReachesZero(cfg, s, id, vector);
        BeforeLevelZero(cfg, s, id, vector, h0, InsertResult(cfg, s, id, vector).nodes);
        ConnectAtComplete(cfg, h0, id, vector, entry);
      } else {
        assert forall a :: Active(s.nodes, a) ==> a in ActiveIds(s.nodes);
      }
    }
  }

  lemma BeforeLevelZero(cfg: Config, s: State, id: Id, vector: Vector, h0: Graph, r: Graph)
    requires Complete(s.nodes) && id !in s.nodes && SameNodes(Fresh(cfg, s.nodes, id, vector), r) && SameNodes(h0, r)
    requires SameLevel(Fresh(cfg, s.nodes, id, vector), h0, 0)
    ensures Active(h0, id)
    ensures forall a, b :: Active(h0, a) && Active(h0, b) && a != b && a != id && b != id ==> b in Nbrs(h0, a, 0)
  {
    var g := Fresh(cfg, s.nodes, id, vector);
    forall a, b | Active(h0, a) && Active(h0, b) && a != b && a != id && b != id
      ensures b in Nbrs(h0, a, 0)
    {
      assert a in r && b in r && Active(s.nodes, a) && Active(s.nodes, b);
      assert Nbrs(g, a, 0) == Nbrs(h0, a, 0);
    }
  }

  lemma {:induction false} InsertAllComplete(cfg: Config, s: State, items: seq<(Id, Vector)>)
    requires StateOk(cfg, s) && Complete(s.nodes)
    requires Roomy(cfg, |InsertAll(cfg, s, items).nodes.Keys|)
    ensures Complete(InsertAll(cfg, s, items).nodes)
    decreases |items|
  {
    if items == [] {
    } else {
      var t := InsertResult(cfg, s, items[0].0, items[0].1);
      InsertAllKeys(cfg, t, items[1..]);
      SubsetSize(t.nodes.Keys, InsertAll(cfg, t, items[1..]).nodes.Keys);
      InsertOk(cfg, s, items[0].0, items[0].1);
      InsertComplete(cfg, s, items[0].0, items[0].1);
      InsertAllComplete(cfg, t, items[1..]);
    }
  }

  // ----- runs

  lemma RemoveComplete(s: State, id: Id, t: State)
    requires Complete(s.nodes) && RemoveStep(s, id, t)
    ensures Complete(t.nodes)
  {
    RemoveKeeps(s, id, t);
    assert forall a :: Active(t.nodes, a) ==> Active(s.nodes, a);
  }

  lemma CleanupComplete(s: State)
    requires Complete(s.nodes)
    ensures Complete(CleanupResult(s).nodes)
  {
    CleanNbrs(s.nodes);
    assert forall a :: Active(CleanGraph(s.nodes), a) ==> Active(s.nodes, a);
  }

  lemma NextComplete(cfg: Config, s: State, op: HnswRuns.Op, t: State)
    requires StateOk(cfg, s) && Complete(s.nodes) && HnswRuns.Next(cfg, s, op, t)
    requires Roomy(cfg, |t.nodes.Keys|)
    ensures Complete(t.nodes)
  {
    match op
    case Insert(id, vector) => InsertComplete(cfg, s, id, vector);
    case Remove(id) => RemoveComplete(s, id, t);
    case Cleanup => CleanupComplete(s);
    case CleanupAndReindex =>
      var items: seq<(Id, Vector)> :| Lists(items, Vectors(CleanupResult(s).nodes)) && t == InsertAll(cfg, EMPTY, items);
      EmptyOk(cfg);
      InsertAllComplete(cfg, EMPTY, items);
  }

  /** No state up to the `i`-th outgrows the bound. */
  ghost predicate StaysSmall(cfg: Config, states: seq<State>, i: nat) {
    forall j :: 0 <= j <= i && j < |states| ==> Roomy(cfg, |states[j].nodes.Keys|)
  }

  lemma {:induction false} RunComplete(cfg: Config, states: seq<State>, ops: seq<HnswRuns.Op>, i: nat)
    requires Run(cfg, states, ops) && i < |states| && StaysSmall(cfg, states, i)
    ensures Complete(states[i].nodes)
  {
    if i > 0 {
      RunComplete(cfg, states, ops, i - 1);
      RunCompleteNext(cfg, states, ops, i - 1, states[i - 1], states[i]);
    }
  }

  lemma RunCompleteNext(cfg: Config, states: seq<State>, ops: seq<HnswRuns.Op>, i: nat, s: State, t: State)
    requires Run(cfg, states, ops) && i < |ops| && s == states[i] && t == states[i + 1] && Complete(s.nodes)
    requires Roomy(cfg, |t.nodes.Keys|)
    ensures Complete(t.nodes)
  {
    RunOk(cfg, states, ops, i);
    assert Follows(cfg, states, ops, i);
    NextComplete(cfg, s, ops[i], t);
  }

  /** Over every run of insertions, removals, cleanups and rebuilds of a small table: the graph index answers exactly
      like the exact index over the active nodes, tie-breaks included. */
  lemma SmallRunExact(cfg: Config, states: seq<State>, ops: seq<HnswRuns.Op>, i: nat, query: Vector, k: nat, ef: nat)
    requires Run(cfg, states, ops) && i < |states| && StaysSmall(cfg, states, i) && |query| == cfg.dim
    requires ef >= |ActiveIds(states[i].nodes)|
    ensures SearchResult(cfg, states[i], query, k, ef) ==
      Nearest(FlatConfig(cfg.dim, cfg.dist), ActiveVectors(states[i].nodes), query, k)
  {
    RunOk(cfg, states, ops, i);
    RunComplete(cfg, states, ops, i);
    CompleteExact(cfg, states[i], query, k, ef);
  }
}
