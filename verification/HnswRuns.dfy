/** What every run of the graph index keeps, and when its answers are exact. */
module HnswRuns {
  import opened Ranking
  import opened HnswGraph
  import opened HnswState

  // ----- removal

  lemma {:induction false} HighestOk(levels: map<int, set<Id>>, from: int)
    requires from >= -1
    ensures var h := Highest(levels, from);
      && -1 <= h <= from && (h == -1 || h in levels)
      && forall l :: h < l <= from ==> l !in levels
    decreases from + 1
  {
    if from < 0 || from in levels {
    } else {
      HighestOk(levels, from - 1);
    }
  }

  lemma DeactivateOk(cfg: Config, g: Graph, id: Id)
    requires GraphOk(cfg, g) && id in g
    ensures GraphOk(cfg, Deactivate(g, id))
  {
    var h := Deactivate(g, id);
    assert forall a, l :: Nbrs(h, a, l) == Nbrs(g, a, l);
    forall a, b, l | b in Nbrs(h, a, l)
      ensures EdgeOk(h, a, b, l)
    {
      assert EdgeOk(g, a, b, l);
    }
    forall a, l
      ensures |Nbrs(h, a, l)| <= Cap(cfg, l)
    {
      assert |Nbrs(g, a, l)| <= Cap(cfg, l);
    }
  }

  lemma UnregisterOk(g: Graph, levels: map<int, set<Id>>, id: Id)
    requires RegistryOk(g, levels) && Active(g, id)
    ensures RegistryOk(Deactivate(g, id), Unregister(levels, g[id].level, id))
  {
    var h := Deactivate(g, id);
    var level := g[id].level;
    var r := Unregister(levels, level, id);
    assert forall l :: ActiveAt(h, l) == ActiveAt(g, l) - if l == level then {id} else {};
    forall a | Active(h, a)
      ensures h[a].level in r
    {
      assert Active(g, a) && a in ActiveAt(h, h[a].level);
    }
  }

  /** The downward scan re-establishes the entry point. */
  lemma ScanOk(h: Graph, levels: map<int, set<Id>>, from: int, maxLevel: int, entry: Option<Id>)
    requires RegistryOk(h, levels) && from >= -1 && maxLevel == Highest(levels, from)
    requires forall a :: Active(h, a) ==> h[a].level <= from
    requires match entry
      case None => maxLevel !in levels || forall a :: a in levels[maxLevel] ==> !Active(h, a)
      case Some(e) => maxLevel in levels && e in levels[maxLevel] && Active(h, e)
    ensures EntryOk(h, maxLevel, entry)
  {
    HighestOk(levels, from);
    assert forall l :: l in levels ==> exists a :: a in levels[l] && Active(h, a);
    assert forall a :: Active(h, a) ==> h[a].level in levels;
  }

  lemma RemoveOk(cfg: Config, s: State, id: Id, t: State)
    requires StateOk(cfg, s) && RemoveStep(s, id, t)
    ensures StateOk(cfg, t)
  {
    if s.entry != None && Active(s.nodes, id) {
      DeactivateOk(cfg, s.nodes, id);
      UnregisterOk(s.nodes, s.levels, id);
      RemoveEntryOk(s, id, t);
    }
  }

  lemma RemoveEntryOk(s: State, id: Id, t: State)
    requires EntryOk(s.nodes, s.maxLevel, s.entry) && s.entry != None && Active(s.nodes, id) && RemoveStep(s, id, t)
    requires RegistryOk(t.nodes, t.levels)
    ensures EntryOk(t.nodes, t.maxLevel, t.entry)
  {
    assert forall a :: Active(t.nodes, a) ==> Active(s.nodes, a) && s.nodes[a].level == t.nodes[a].level;
    if s.entry == Some(id) {
      ScanOk(t.nodes, t.levels, s.maxLevel, t.maxLevel, t.entry);
    }
  }

  // ----- cleanup

  lemma CleanNbrs(g: Graph)
    ensures forall a, l :: Nbrs(CleanGraph(g), a, l) == if Active(g, a) then ActiveOf(g, Nbrs(g, a, l)) else {}
    ensures CleanGraph(g).Keys == ActiveIds(g)
  {}

  /** After a cleanup only active nodes are left, and the invariant still holds. */
  lemma CleanupOk(cfg: Config, s: State)
    requires StateOk(cfg, s)
    ensures StateOk(cfg, CleanupResult(s))
    ensures CleanupResult(s).nodes.Keys == ActiveIds(CleanupResult(s).nodes) == ActiveIds(s.nodes)
  {
    var g := s.nodes;
    var h := CleanGraph(g);
    CleanNbrs(g);
    forall a, b, l | b in Nbrs(h, a, l)
      ensures EdgeOk(h, a, b, l)
    {
      assert EdgeOk(g, a, b, l);
    }
    forall a, l
      ensures |Nbrs(h, a, l)| <= Cap(cfg, l)
    {
      assert |Nbrs(g, a, l)| <= Cap(cfg, l);
      SubsetSize(Nbrs(h, a, l), Nbrs(g, a, l));
    }
    assert forall a :: Active(h, a) <==> Active(g, a);
    assert forall l :: ActiveAt(h, l) == ActiveAt(g, l);
  }

  // ----- rebuild

  /** An effective insertion adds one active node and keeps every other node but for its edges. */
  lemma InsertAdds(cfg: Config, s: State, id: Id, vector: Vector)
    requires |vector| == cfg.dim && id !in s.nodes
    ensures SameNodes(Fresh(cfg, s.nodes, id, vector), InsertResult(cfg, s, id, vector).nodes)
  {}

  ghost function ItemIds(items: seq<(Id, Vector)>): set<Id> {
    set i | 0 <= i < |items| :: items[i].0
  }

  lemma ItemIdsCons(items: seq<(Id, Vector)>)
    requires items != []
    ensures ItemIds(items) == {items[0].0} + ItemIds(items[1..])
  {
    forall i | 0 < i < |items|
      ensures items[i].0 in ItemIds(items[1..])
    {
      assert items[1..][i - 1] == items[i];
    }
  }

  /** The nodes of `g`, less their edges, are those of `s` and of the first `n` items. */
  ghost predicate Holds(cfg: Config, items: seq<(Id, Vector)>, s: State, g: Graph) {
    && g.Keys == s.nodes.Keys + ItemIds(items)
    && (forall a :: a in s.nodes ==>
          g[a].vector == s.nodes[a].vector && g[a].active == s.nodes[a].active && g[a].level == s.nodes[a].level)
    && (forall i :: 0 <= i < |items| ==>
          var n := g[items[i].0]; n.vector == items[i].1 && n.active && n.level == cfg.levelOf(items[i].0))
  }

  lemma {:induction false} InsertAllHolds(cfg: Config, s: State, items: seq<(Id, Vector)>)
    requires forall i :: 0 <= i < |items| ==> items[i].0 !in s.nodes && |items[i].1| == cfg.dim
    requires forall i, j :: 0 <= i < j < |items| ==> items[i].0 != items[j].0
    ensures Holds(cfg, items, s, InsertAll(cfg, s, items).nodes)
    decreases |items|
  {
    if items == [] {
    } else {
      var t := InsertResult(cfg, s, items[0].0, items[0].1);
      InsertAdds(cfg, s, items[0].0, items[0].1);
      InsertAllHolds(cfg, t, items[1..]);
      HoldsCons(cfg, items, s, t, InsertAll(cfg, s, items).nodes);
    }
  }

  lemma HoldsCons(cfg: Config, items: seq<(Id, Vector)>, s: State, t: State, g: Graph)
    requires items != [] && items[0].0 !in s.nodes
    requires SameNodes(Fresh(cfg, s.nodes, items[0].0, items[0].1), t.nodes)
    requires Holds(cfg, items[1..], t, g)
    ensures Holds(cfg, items, s, g)
  {
    var id := items[0].0;
    assert t.nodes.Keys == s.nodes.Keys + {id};
    ItemIdsCons(items);
    forall i | 0 <= i < |items|
      ensures var n := g[items[i].0]; n.vector == items[i].1 && n.active && n.level == cfg.levelOf(items[i].0)
    {
      if i > 0 {
        assert items[1..][i - 1] == items[i];
      }
    }
  }

  lemma {:induction false} InsertAllOk(cfg: Config, s: State, items: seq<(Id, Vector)>)
    requires StateOk(cfg, s)
    ensures StateOk(cfg, InsertAll(cfg, s, items))
    decreases |items|
  {
    if items == [] {
    } else {
      InsertOk(cfg, s, items[0].0, items[0].1);
      InsertAllOk(cfg, InsertResult(cfg, s, items[0].0, items[0].1), items[1..]);
    }
  }

  lemma EmptyOk(cfg: Config)
    ensures StateOk(cfg, EMPTY)
  {}

  /** `h` has the given nodes, all of them active, with their vectors and levels. */
  ghost predicate Renewed(h: Graph, g: Graph, keys: set<Id>) {
    && h.Keys == keys && keys <= g.Keys
    && forall a :: a in keys ==> h[a].active && h[a].vector == g[a].vector && h[a].level == g[a].level
  }

  lemma ListedHolds(cfg: Config, s: State, items: seq<(Id, Vector)>, h: Graph)
    requires NodesOk(cfg, s.nodes) && Lists(items, Vectors(s.nodes)) && Holds(cfg, items, EMPTY, h)
    ensures Renewed(h, s.nodes, s.nodes.Keys)
  {
    forall a | a in s.nodes
      ensures a in h && h[a].active && h[a].vector == s.nodes[a].vector && h[a].level == s.nodes[a].level
    {
      assert a in Vectors(s.nodes) && (a, Vectors(s.nodes)[a]) in items;
      var i :| 0 <= i < |items| && items[i] == (a, s.nodes[a].vector);
      assert items[i].0 in h;
    }
  }

  /** A reindex makes every node present active again, soft-removed ones included, and keeps the vectors
      and levels of all of them. */
  lemma ReindexKeeps(cfg: Config, s: State, t: State)
    requires StateOk(cfg, s) && ReindexStep(cfg, s, t)
    ensures StateOk(cfg, t) && Renewed(t.nodes, s.nodes, s.nodes.Keys)
  {
    var items: seq<(Id, Vector)> :| Lists(items, Vectors(s.nodes)) && t == InsertAll(cfg, EMPTY, items);
    ReindexInserts(cfg, s, items);
  }

  lemma ReindexInserts(cfg: Config, s: State, items: seq<(Id, Vector)>)
    requires StateOk(cfg, s) && Lists(items, Vectors(s.nodes))
    ensures StateOk(cfg, InsertAll(cfg, EMPTY, items))
    ensures Renewed(InsertAll(cfg, EMPTY, items).nodes, s.nodes, s.nodes.Keys)
  {
    EmptyOk(cfg);
    InsertAllOk(cfg, EMPTY, items);
    forall i | 0 <= i < |items|
      ensures |items[i].1| == cfg.dim
    {
      assert items[i].0 in s.nodes;
    }
    InsertAllHolds(cfg, EMPTY, items);
    ListedHolds(cfg, s, items, InsertAll(cfg, EMPTY, items).nodes);
  }

  lemma RegistryUnique(g: Graph, levels: map<int, set<Id>>, h: Graph, levels': map<int, set<Id>>)
    requires RegistryOk(g, levels) && RegistryOk(h, levels')
    requires forall a :: Active(g, a) <==> Active(h, a)
    requires forall a :: Active(g, a) ==> g[a].level == h[a].level
    ensures levels == levels'
  {
    forall l
      ensures l in levels <==> l in levels'
      ensures l in levels ==> levels[l] == levels'[l]
    {
      assert ActiveAt(g, l) == ActiveAt(h, l);
      assert forall a :: a in ActiveAt(g, l) ==> Active(g, a) && Active(h, a);
    }
    assert levels.Keys == levels'.Keys;
  }

  lemma SameActive(cfg: Config, s: State, t: State)
    requires StateOk(cfg, s) && StateOk(cfg, t) && Renewed(t.nodes, s.nodes, ActiveIds(s.nodes))
    ensures t.levels == s.levels && t.maxLevel == s.maxLevel
  {
    assert forall a :: Active(s.nodes, a) <==> a in ActiveIds(s.nodes);
    assert forall a :: Active(s.nodes, a) <==> Active(t.nodes, a);
    RegistryUnique(s.nodes, s.levels, t.nodes, t.levels);
    assert ActiveIds(t.nodes) == ActiveIds(s.nodes);
  }

  /** Cleanup, then reindex, in whatever order: the active ids, their vectors and levels, the level
      registry and the maximum level are unchanged, and nothing inactive is left. */
  lemma RebuildKeeps(cfg: Config, s: State, t: State)
    requires StateOk(cfg, s) && ReindexStep(cfg, CleanupResult(s), t)
    ensures StateOk(cfg, t) && Renewed(t.nodes, s.nodes, ActiveIds(s.nodes))
    ensures t.levels == s.levels && t.maxLevel == s.maxLevel
  {
    CleanupOk(cfg, s);
    ReindexKeeps(cfg, CleanupResult(s), t);
    SameActive(cfg, s, t);
  }

  /** Without a cleanup first, a reindex keeps the active ids exactly when nothing is soft-removed. */
  lemma ReindexAlone(cfg: Config, s: State, t: State)
    requires StateOk(cfg, s) && ReindexStep(cfg, s, t)
    ensures ActiveIds(t.nodes) == ActiveIds(s.nodes) <==> forall a :: a in s.nodes ==> s.nodes[a].active
  {
    ReindexKeeps(cfg, s, t);
    AllActive(s.nodes, t.nodes);
  }

  lemma AllActive(g: Graph, h: Graph)
    requires Renewed(h, g, g.Keys)
    ensures ActiveIds(h) == ActiveIds(g) <==> forall a :: a in g ==> g[a].active
  {
    assert ActiveIds(h) == g.Keys;
    assert forall a :: a in g ==> (a in ActiveIds(g) <==> g[a].active);
  }

  // ----- one id inserted and removed

  /** The index after one insertion into an empty one and the removal of the same id. */
  function RemovedAgain(cfg: Config, id: Id, vector: Vector): State {
    State(map[id := Node(vector, cfg.levelOf(id), map[], false)], map[], -1, None)
  }

  lemma RemovedAgainOk(cfg: Config, id: Id, vector: Vector)
    requires |vector| == cfg.dim
    ensures RemoveStep(InsertResult(cfg, EMPTY, id, vector), id, RemovedAgain(cfg, id, vector))
  {
    var s := InsertResult(cfg, EMPTY, id, vector);
    var none: set<Id> := {};
    assert none + {id} == {id};
    assert s.levels == map[cfg.levelOf(id) := {id}] by { assert s.levels == Register(map[], cfg.levelOf(id), id); }
    HighestOk(map[], cfg.levelOf(id));
    assert Unregister(s.levels, cfg.levelOf(id), id) == map[];
  }

  /** Inserting the id once more does nothing to the index. */
  lemma ReinsertionIgnored(cfg: Config, id: Id, vector: Vector, again: Vector)
    requires |vector| == cfg.dim && |again| == cfg.dim
    ensures var s := RemovedAgain(cfg, id, vector);
      && RemoveStep(InsertResult(cfg, EMPTY, id, vector), id, s)
      && !Active(InsertResult(cfg, s, id, again).nodes, id)
  {
    RemovedAgainOk(cfg, id, vector);
  }

  /** A reindex without a cleanup first brings the removed id back. */
  lemma ReindexRevives(cfg: Config, id: Id, vector: Vector, t: State)
    requires |vector| == cfg.dim && ReindexStep(cfg, RemovedAgain(cfg, id, vector), t)
    ensures RemoveStep(InsertResult(cfg, EMPTY, id, vector), id, RemovedAgain(cfg, id, vector))
    ensures Active(t.nodes, id)
  {
    var s := InsertResult(cfg, EMPTY, id, vector);
    RemovedAgainOk(cfg, id, vector);
    EmptyOk(cfg);
    InsertOk(cfg, EMPTY, id, vector);
    RemoveOk(cfg, s, id, RemovedAgain(cfg, id, vector));
    ReindexKeeps(cfg, RemovedAgain(cfg, id, vector), t);
  }

  // ----- runs

  datatype Op = Insert(id: Id, vector: Vector) | Remove(id: Id) | Cleanup | CleanupAndReindex

  ghost predicate Next(cfg: Config, s: State, op: Op, t: State) {
    match op
    case Insert(id, vector) => t == InsertResult(cfg, s, id, vector)
    case Remove(id) => RemoveStep(s, id, t)
    case Cleanup => t == CleanupResult(s)
    case CleanupAndReindex => ReindexStep(cfg, CleanupResult(s), t)
  }

  ghost predicate Follows(cfg: Config, states: seq<State>, ops: seq<Op>, i: nat)
    requires i < |ops| && |states| == |ops| + 1
  {
    Next(cfg, states[i], ops[i], states[i + 1])
  }

  ghost predicate Run(cfg: Config, states: seq<State>, ops: seq<Op>) {
    && |states| == |ops| + 1 && states[0] == EMPTY
    && forall i :: 0 <= i < |ops| ==> Follows(cfg, states, ops, i)
  }

  lemma NextOk(cfg: Config, s: State, op: Op, t: State)
    requires StateOk(cfg, s) && Next(cfg, s, op, t)
    ensures StateOk(cfg, t)
  {
    match op
    case Insert(id, vector) => InsertOk(cfg, s, id, vector);
    case Remove(id) => RemoveOk(cfg, s, id, t);
    case Cleanup => CleanupOk(cfg, s);
    case CleanupAndReindex => RebuildKeeps(cfg, s, t);
  }

  /** Every state of every run satisfies the invariant: symmetric edges without self-loops between present
      nodes of sufficient level, bounded degrees, an exact level registry, and a highest entry point. */
  lemma {:induction false} RunOk(cfg: Config, states: seq<State>, ops: seq<Op>, i: nat)
    requires Run(cfg, states, ops) && i < |states|
    ensures StateOk(cfg, states[i])
  {
    if i == 0 {
      EmptyOk(cfg);
    } else {
      RunOk(cfg, states, ops, i - 1);
      assert Follows(cfg, states, ops, i - 1);
      NextOk(cfg, states[i - 1], ops[i - 1], states[i]);
    }
  }
}
