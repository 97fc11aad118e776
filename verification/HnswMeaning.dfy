/** What the operations of the graph index do, said without their recursion: the descent of a search and of an
    insertion, what a new node is offered at each level, and what a removal leaves alone. */
module HnswMeaning {
  import opened Ranking
  import opened HnswGraph
  import opened BeamSearch
  import opened HnswState
  import opened HnswRuns

  // ----- the descent

  /** One level of a descent: `b` is as close to the query as anything that a search from `a` visits there. */
  ghost predicate Stage(cfg: Config, g: Graph, query: Vector, ef: nat, level: int, a: Id, b: Id) {
    var visited := Visited(cfg, g, query, a, ef, level);
    && a in visited && ActiveNbrs(g, a, level) <= visited && b in visited
    && (forall v :: v in visited ==> Score(cfg, g, query, b).dist <= Score(cfg, g, query, v).dist)
    && (ef == 1 ==> DownTo(cfg, g, query, level, a, b))
  }

  /** The entry points of the levels from `hi` down to `lo`. */
  ghost predicate Route(cfg: Config, g: Graph, query: Vector, ef: nat, hi: int, lo: int, route: seq<Id>) {
    && |route| == (if hi > lo then hi - lo else 0) + 1
    && forall i :: 0 <= i < |route| - 1 ==> Stage(cfg, g, query, ef, hi - i, route[i], route[i + 1])
  }

  lemma StageOk(cfg: Config, g: Graph, query: Vector, ef: nat, level: int, a: Id)
    requires Active(g, a) && ef > 0
    ensures var r := SearchLevel(cfg, g, query, a, ef, level);
      r != [] && Stage(cfg, g, query, ef, level, a, r[0])
  {
    var r := SearchLevel(cfg, g, query, a, ef, level);
    SearchLevelMeaning(cfg, g, query, a, ef, level);
    EntryExpanded(cfg, g, query, a, ef, level);
    HeadIn(r);
    forall v | v in Visited(cfg, g, query, a, ef, level)
      ensures Score(cfg, g, query, r[0]).dist <= Score(cfg, g, query, v).dist
    {
      VisitedBest(cfg, g, query, a, ef, level, v);
    }
    if ef == 1 {
      GreedyDownhill(cfg, g, query, a, level);
    }
  }

  lemma {:induction false} DescentRoute(cfg: Config, g: Graph, query: Vector, entry: Id, ef: nat, hi: int, lo: int,
      but: set<Id>) returns (route: seq<Id>)
    requires EdgesOk(g) && entry in Above(g, hi, but) && ef > 0
    requires forall b, l :: b in but ==> Nbrs(g, b, l) == {}
    ensures Route(cfg, g, query, ef, hi, lo, route) && route[0] == entry
    ensures route[|route| - 1] == Descend(cfg, g, query, entry, ef, hi, lo)
    decreases hi - lo
  {
    if hi <= lo {
      route := [entry];
    } else {
      StageOk(cfg, g, query, ef, hi, entry);
      var next := DescendStep(cfg, g, query, entry, ef, hi, lo, but);
      var rest := DescentRoute(cfg, g, query, next, ef, hi - 1, lo, but);
      route := [entry] + rest;
      forall i | 0 <= i < |route| - 1
        ensures Stage(cfg, g, query, ef, hi - i, route[i], route[i + 1])
      {
        if i > 0 {
          assert Stage(cfg, g, query, ef, hi - 1 - (i - 1), rest[i - 1], rest[i]);
        }
      }
    }
  }

  /** A search goes down level by level, each time to the best of what it visits, and answers with the `k` best of
      what a search of level 0 finds from where it ends. */
  lemma SearchRoute(cfg: Config, s: State, query: Vector, k: nat, ef: nat) returns (route: seq<Id>)
    requires StateOk(cfg, s) && s.entry.Some? && ef > 0
    ensures Route(cfg, s.nodes, query, ef, s.maxLevel, 0, route) && route[0] == s.entry.value
    ensures SearchResult(cfg, s, query, k, ef) ==
      Take(SearchLevel(cfg, s.nodes, query, route[|route| - 1], ef, 0), k)
  {
    route := DescentRoute(cfg, s.nodes, query, s.entry.value, ef, s.maxLevel, 0, {});
  }

  lemma {:induction false} RouteCloser(cfg: Config, g: Graph, query: Vector, ef: nat, hi: int, lo: int, route: seq<Id>,
      i: nat, j: nat)
    requires Route(cfg, g, query, ef, hi, lo, route) && i <= j < |route| && Active(g, route[0]) && ef > 0
    ensures Active(g, route[j])
    ensures Score(cfg, g, query, route[j]).dist <= Score(cfg, g, query, route[i]).dist
    decreases j
  {
    if j > 0 {
      var before := if i < j then i else j - 1;
      RouteCloser(cfg, g, query, ef, hi, lo, route, before, j - 1);
      assert Stage(cfg, g, query, ef, hi - (j - 1), route[j - 1], route[j]);
      SearchLevelMeaning(cfg, g, query, route[j - 1], ef, hi - (j - 1));
    }
  }

  /** The first hit is no farther than anything that is visited from the entry point at the highest level. */
  lemma FirstHit(cfg: Config, s: State, query: Vector, k: nat, ef: nat, v: Id)
    requires StateOk(cfg, s) && s.entry.Some? && s.maxLevel > 0 && k > 0 && ef > 0
    requires v in Visited(cfg, s.nodes, query, s.entry.value, ef, s.maxLevel)
    ensures var r := SearchResult(cfg, s, query, k, ef);
      r != [] && Score(cfg, s.nodes, query, r[0]).dist <= Score(cfg, s.nodes, query, v).dist
  {
    var route := SearchRoute(cfg, s, query, k, ef);
    var n := |route| - 1;
    assert Stage(cfg, s.nodes, query, ef, s.maxLevel - 0, route[0], route[1]);
    RouteCloser(cfg, s.nodes, query, ef, s.maxLevel, 0, route, 1, n);
    BestHit(cfg, s.nodes, query, route[n], ef, 0);
  }

  /** The first hit is no farther than any active neighbour of the entry point at the highest level. */
  lemma HitNearTop(cfg: Config, s: State, query: Vector, k: nat, ef: nat, v: Id)
    requires StateOk(cfg, s) && s.entry.Some? && s.maxLevel > 0 && k > 0 && ef > 0
    requires v in ActiveNbrs(s.nodes, s.entry.value, s.maxLevel)
    ensures var r := SearchResult(cfg, s, query, k, ef);
      r != [] && Score(cfg, s.nodes, query, r[0]).dist <= Score(cfg, s.nodes, query, v).dist
  {
    EntryExpanded(cfg, s.nodes, query, s.entry.value, ef, s.maxLevel);
    FirstHit(cfg, s, query, k, ef, v);
  }

  /** A walk over active edges of one level. */
  ghost predicate Walk(g: Graph, level: int, p: seq<Id>) {
    p != [] && forall i :: 0 <= i < |p| - 1 ==> p[i + 1] in ActiveNbrs(g, p[i], level)
  }

  lemma {:induction false} WalkStays(g: Graph, level: int, p: seq<Id>, C: set<Id>, i: nat)
    requires Walk(g, level, p) && Closed(g, level, C) && p[0] in C && i < |p|
    ensures p[i] in C
  {
    if i > 0 {
      WalkStays(g, level, p, C, i - 1);
    }
  }

  /** With room for every node, the first hit is no farther than any node of the component of the entry point at the
      highest level. */
  lemma HitInComponent(cfg: Config, s: State, query: Vector, k: nat, ef: nat, p: seq<Id>)
    requires StateOk(cfg, s) && s.entry.Some? && s.maxLevel > 0 && k > 0 && ef >= |s.nodes.Keys|
    requires Walk(s.nodes, s.maxLevel, p) && p[0] == s.entry.value
    ensures var r := SearchResult(cfg, s, query, k, ef);
      r != [] && Score(cfg, s.nodes, query, r[0]).dist <= Score(cfg, s.nodes, query, p[|p| - 1]).dist
  {
    var e := s.entry.value;
    SubsetSize({e}, s.nodes.Keys);
    SearchLevelMeaning(cfg, s.nodes, query, e, ef, s.maxLevel);
    SubsetSize(Visited(cfg, s.nodes, query, e, ef, s.maxLevel), s.nodes.Keys);
    RoomForAll(cfg, s.nodes, query, e, ef, s.maxLevel);
    WalkStays(s.nodes, s.maxLevel, p, Visited(cfg, s.nodes, query, e, ef, s.maxLevel), |p| - 1);
    FirstHit(cfg, s, query, k, ef, p[|p| - 1]);
  }

  // ----- insertion

  /** What a new vector is offered at one level: the best of what a search for `efConstruction` nodes visits, as many
      as fit. */
  ghost predicate Offer(cfg: Config, g: Graph, vector: Vector, entry: Id, level: int, ns: seq<Id>) {
    var visited := Visited(cfg, g, vector, entry, cfg.efConstruction, level);
    && |ns| == |Elems(ns)| == Min(if level == 0 then cfg.m0 else cfg.m, Min(cfg.efConstruction, |visited|))
    && Elems(ns) <= visited * ActiveIds(g)
    && (forall i, j :: 0 <= i < j < |ns| ==> Less(Score(cfg, g, vector, ns[i]), Score(cfg, g, vector, ns[j])))
    && (forall a, v :: a in ns && v in visited - Elems(ns) ==>
          Score(cfg, g, vector, a).dist <= Score(cfg, g, vector, v).dist)
  }

  lemma SelectedAscending(cfg: Config, g: Graph, query: Vector, candidates: set<Id>, level: int)
    ensures var r := Selected(cfg, g, query, candidates, level);
      forall i, j :: 0 <= i < j < |r| ==> Less(Score(cfg, g, query, r[i]), Score(cfg, g, query, r[j]))
  {
    var P := Scores(cfg, g, query, ActiveOf(g, candidates));
    TakeRankLeast(P, Cap(cfg, level));
    IdsOfScores(cfg, g, query, ActiveOf(g, candidates), Take(Rank(P), Cap(cfg, level)));
  }

  lemma ChosenOffer(cfg: Config, g: Graph, vector: Vector, entry: Id, level: int)
    requires Active(g, entry)
    ensures Offer(cfg, g, vector, entry, level, Chosen(cfg, g, vector, entry, level))
  {
    var found := SearchLevel(cfg, g, vector, entry, cfg.efConstruction, level);
    SelectedMeaning(cfg, g, vector, Elems(found), level);
    SelectedAscending(cfg, g, vector, Elems(found), level);
    if cfg.efConstruction > 0 {
      SearchLevelMeaning(cfg, g, vector, entry, cfg.efConstruction, level);
      assert ActiveOf(g, Elems(found)) == Elems(found);
      forall a, v | a in Chosen(cfg, g, vector, entry, level) &&
          v in Visited(cfg, g, vector, entry, cfg.efConstruction, level) - Elems(Chosen(cfg, g, vector, entry, level))
        ensures Score(cfg, g, vector, a).dist <= Score(cfg, g, vector, v).dist
      {
        OfferedFirst(cfg, g, vector, entry, level, a, v);
      }
    }
  }

  lemma OfferedFirst(cfg: Config, g: Graph, vector: Vector, entry: Id, level: int, a: Id, v: Id)
    requires Active(g, entry) && cfg.efConstruction > 0
    requires v in Visited(cfg, g, vector, entry, cfg.efConstruction, level)
    requires var ns := Chosen(cfg, g, vector, entry, level); a in ns && v !in ns
    ensures Score(cfg, g, vector, a).dist <= Score(cfg, g, vector, v).dist
  {
    var found := SearchLevel(cfg, g, vector, entry, cfg.efConstruction, level);
    SelectedMeaning(cfg, g, vector, Elems(found), level);
    SearchLevelMeaning(cfg, g, vector, entry, cfg.efConstruction, level);
    assert a in Elems(Chosen(cfg, g, vector, entry, level));
    assert v in Elems(found) ==> v in ActiveOf(g, Elems(found));
  }

  /** `r` comes from `g` by connecting the levels from `level` down to 0, each with what the new node is offered. */
  ghost predicate Built(cfg: Config, id: Id, vector: Vector, entry: Id, g: Graph, level: int, r: Graph)
    decreases level + 1
  {
    if level < 0 then r == g
    else
      exists ns: seq<Id>, h: Graph :: BuiltAt(cfg, id, vector, entry, g, ns, level, h) &&
        Built(cfg, id, vector, entry, h, level - 1, r)
  }

  ghost predicate BuiltAt(cfg: Config, id: Id, vector: Vector, entry: Id, g: Graph, ns: seq<Id>, level: nat, h: Graph) {
    && Offer(cfg, g, vector, entry, level, ns)
    && id in g && Elems(ns) <= g.Keys && h == ConnectAll(cfg, g, id, ns, level)
  }

  lemma LevelBuilt(cfg: Config, g: Graph, id: Id, vector: Vector, entry: Id, level: nat) returns (h: Graph, ns: seq<Id>)
    requires Connecting(cfg, g, id, entry, level)
    ensures BuiltAt(cfg, id, vector, entry, g, ns, level, h) && h == ConnectAt(cfg, g, id, vector, entry, level)
    ensures Connecting(cfg, h, id, entry, level - 1)
  {
    ns := Chosen(cfg, g, vector, entry, level);
    ChosenOffer(cfg, g, vector, entry, level);
    h := ConnectAtOk(cfg, g, id, vector, entry, level);
  }

  lemma BuiltStep(cfg: Config, id: Id, vector: Vector, entry: Id, g: Graph, level: nat, ns: seq<Id>, h: Graph, r: Graph)
    requires BuiltAt(cfg, id, vector, entry, g, ns, level, h) && Built(cfg, id, vector, entry, h, level - 1, r)
    ensures Built(cfg, id, vector, entry, g, level, r)
  {}

  lemma LevelsStep(cfg: Config, g: Graph, id: Id, vector: Vector, entry: Id, level: nat)
    requires id in g
    ensures ConnectLevels(cfg, g, id, vector, entry, level) ==
      ConnectLevels(cfg, ConnectAt(cfg, g, id, vector, entry, level), id, vector, entry, level - 1)
  {}

  lemma {:induction false} LevelsBuilt(cfg: Config, g: Graph, id: Id, vector: Vector, entry: Id, level: int)
    requires Connecting(cfg, g, id, entry, level) && level >= -1
    ensures Built(cfg, id, vector, entry, g, level, ConnectLevels(cfg, g, id, vector, entry, level))
    decreases level + 1
  {
    if level < 0 {
    } else {
      var h, ns := LevelBuilt(cfg, g, id, vector, entry, level);
      LevelsBuilt(cfg, h, id, vector, entry, level - 1);
      LevelsStep(cfg, g, id, vector, entry, level);
      BuiltStep(cfg, id, vector, entry, g, level, ns, h, ConnectLevels(cfg, h, id, vector, entry, level - 1));
    }
  }

  /** What an effective insertion into a nonempty index does: it walks downhill through the levels above the new node's
      and connects the node at each level that both have, from the top one down, with what it is offered there. */
  lemma InsertMeaning(cfg: Config, s: State, id: Id, vector: Vector) returns (route: seq<Id>)
    requires StateOk(cfg, s) && s.entry.Some? && |vector| == cfg.dim && id !in s.nodes
    ensures var g := Fresh(cfg, s.nodes, id, vector);
      && Route(cfg, g, vector, 1, s.maxLevel, cfg.levelOf(id), route) && route[0] == s.entry.value
      && Built(cfg, id, vector, route[|route| - 1], g, Min(s.maxLevel, cfg.levelOf(id)),
           InsertResult(cfg, s, id, vector).nodes)
  {
    var g := Fresh(cfg, s.nodes, id, vector);
    FreshOk(cfg, s.nodes, id, vector);
    route := DescentRoute(cfg, g, vector, s.entry.value, 1, s.maxLevel, cfg.levelOf(id), {id});
    var entry, low := InsertConnects(cfg, s, id, vector);
    LevelsBuilt(cfg, g, id, vector, entry, low);
  }

  // ----- what stays

  /** A removal changes no node but the one removed, and of that one only that it is active; all edges stay. */
  lemma RemoveKeeps(s: State, id: Id, t: State)
    requires RemoveStep(s, id, t)
    ensures t.nodes.Keys == s.nodes.Keys && forall a, l :: Nbrs(t.nodes, a, l) == Nbrs(s.nodes, a, l)
    ensures forall a :: a in s.nodes ==>
      t.nodes[a].vector == s.nodes[a].vector && t.nodes[a].level == s.nodes[a].level
    ensures s.entry.Some? ==> forall a :: Active(t.nodes, a) <==> a != id && Active(s.nodes, a)
  {}

  /** The entry point stays until it is removed, or until a node of a higher level comes. */
  lemma EntryStays(cfg: Config, s: State, op: HnswRuns.Op, t: State)
    requires StateOk(cfg, s) && Next(cfg, s, op, t) && s.entry.Some? && t.entry != s.entry
    ensures op.CleanupAndReindex? || op == Remove(s.entry.value) || (op.Insert? && t.maxLevel > s.maxLevel)
  {}
}
