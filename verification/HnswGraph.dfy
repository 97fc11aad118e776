/** The proximity graph of engine/src/index/hnsw_index.cc: nodes, neighbour sets per level, neighbour
    selection, and the two-way connection of a new node with its cross-node pruning. */
module HnswGraph {
  import opened Ranking

  /** `levelOf` stands for `GetRandomLevel`, which is a function of the id alone. */
  datatype Config = Config(
    m: nat,
    m0: nat,
    efConstruction: nat,
    dim: nat,
    dist: (Vector, Vector) -> real,
    levelOf: Id -> nat)

  datatype Node = Node(vector: Vector, level: nat, neighbors: map<int, set<Id>>, active: bool)

  type Graph = map<Id, Node>

  function Cap(cfg: Config, level: int): nat {
    if level == 0 then cfg.m0 else cfg.m
  }

  function Nbrs(g: Graph, a: Id, level: int): set<Id> {
    if a in g && level in g[a].neighbors then g[a].neighbors[level] else {}
  }

  function With(n: Node, level: int, s: set<Id>): Node {
    n.(neighbors := n.neighbors[level := s])
  }

  function SetNbrs(g: Graph, a: Id, level: int, s: set<Id>): (r: Graph)
    requires a in g
    ensures r.Keys == g.Keys
    ensures forall b, l :: Nbrs(r, b, l) == if b == a && l == level then s else Nbrs(g, b, l)
  {
    g[a := With(g[a], level, s)]
  }

  predicate Active(g: Graph, a: Id) {
    a in g && g[a].active
  }

  ghost function ActiveIds(g: Graph): set<Id> {
    set a | a in g && g[a].active
  }

  /** Everything but the edges is the same. */
  ghost predicate SameNodes(g: Graph, h: Graph) {
    && g.Keys == h.Keys
    && forall a :: a in g ==> g[a].vector == h[a].vector && g[a].level == h[a].level && g[a].active == h[a].active
  }

  /** An edge joins two different present nodes, both of whose levels reach it, and goes both ways. */
  ghost predicate EdgeOk(g: Graph, a: Id, b: Id, l: int) {
    a != b && a in g && b in g && 0 <= l <= g[a].level && l <= g[b].level && a in Nbrs(g, b, l)
  }

  ghost predicate EdgesOk(g: Graph) {
    forall a, b, l :: b in Nbrs(g, a, l) ==> EdgeOk(g, a, b, l)
  }

  ghost predicate DegreesOk(cfg: Config, g: Graph) {
    forall a, l :: |Nbrs(g, a, l)| <= Cap(cfg, l)
  }

  ghost predicate NodesOk(cfg: Config, g: Graph) {
    forall a :: a in g ==> |g[a].vector| == cfg.dim && g[a].level == cfg.levelOf(a)
  }

  ghost predicate GraphOk(cfg: Config, g: Graph) {
    EdgesOk(g) && DegreesOk(cfg, g) && NodesOk(cfg, g)
  }

  // ----- selection

  function Score(cfg: Config, g: Graph, query: Vector, a: Id): Pair {
    Pair(if a in g then cfg.dist(query, g[a].vector) else 0.0, a)
  }

  ghost function Scores(cfg: Config, g: Graph, query: Vector, ids: set<Id>): (r: set<Pair>)
    ensures forall p :: p in r <==> p.id in ids && p == Score(cfg, g, query, p.id)
  {
    set a | a in ids :: Score(cfg, g, query, a)
  }

  ghost function ActiveOf(g: Graph, ids: set<Id>): set<Id> {
    set a | a in ids && Active(g, a)
  }

  lemma {:induction false} ScoresSize(cfg: Config, g: Graph, query: Vector, ids: set<Id>)
    ensures |Scores(cfg, g, query, ids)| == |ids|
  {
    if ids == {} {
    } else {
      var a :| a in ids;
      ScoresSize(cfg, g, query, ids - {a});
      assert Scores(cfg, g, query, ids) == Scores(cfg, g, query, ids - {a}) + {Score(cfg, g, query, a)};
    }
  }

  /** `SelectNeighbors`: the closest active candidates, at most `m0` at level 0 and `m` above. */
  ghost function Selected(cfg: Config, g: Graph, query: Vector, candidates: set<Id>, level: int): seq<Id> {
    Ids(Take(Rank(Scores(cfg, g, query, ActiveOf(g, candidates))), Cap(cfg, level)))
  }

  lemma IdsOfScores(cfg: Config, g: Graph, query: Vector, ids: set<Id>, r: seq<Pair>)
    requires Sorted(r) && Elems(r) <= Scores(cfg, g, query, ids)
    ensures forall i :: 0 <= i < |r| ==> r[i] == Score(cfg, g, query, Ids(r)[i])
    ensures forall a :: a in Ids(r) <==> Score(cfg, g, query, a) in Elems(r)
    ensures forall a :: a in Ids(r) ==> a in ids
    ensures |Elems(Ids(r))| == |r|
  {
    forall i | 0 <= i < |r|
      ensures r[i] == Score(cfg, g, query, Ids(r)[i]) && Ids(r)[i] in ids
    {
      assert r[i] in Elems(r);
    }
    forall a | Score(cfg, g, query, a) in Elems(r)
      ensures a in Ids(r)
    {
      var i :| 0 <= i < |r| && r[i] == Score(cfg, g, query, a);
      assert Ids(r)[i] == a;
    }
    assert Scores(cfg, g, query, Elems(Ids(r))) == Elems(r);
    ScoresSize(cfg, g, query, Elems(Ids(r)));
    SortedSize(r);
  }

  /** What selection means: active candidates only, as many as fit, and none left out is closer. */
  lemma SelectedMeaning(cfg: Config, g: Graph, query: Vector, candidates: set<Id>, level: int)
    ensures var r := Selected(cfg, g, query, candidates, level);
      && |r| == |Elems(r)| == Min(Cap(cfg, level), |ActiveOf(g, candidates)|)
      && Elems(r) <= ActiveOf(g, candidates)
      && (forall a, b :: a in r && b in ActiveOf(g, candidates) - Elems(r) ==>
            Less(Score(cfg, g, query, a), Score(cfg, g, query, b)))
  {
    var ids := ActiveOf(g, candidates);
    var P := Scores(cfg, g, query, ids);
    var t := Take(Rank(P), Cap(cfg, level));
    TakeRankLeast(P, Cap(cfg, level));
    ScoresSize(cfg, g, query, ids);
    IdsOfScores(cfg, g, query, ids, t);
  }

  // ----- connection

  function AddEdge(g: Graph, a: Id, b: Id, level: int): (r: Graph)
    requires a in g && b in g
    ensures SameNodes(g, r)
  {
    var g1 := SetNbrs(g, a, level, Nbrs(g, a, level) + {b});
    SetNbrs(g1, b, level, Nbrs(g1, b, level) + {a})
  }

  lemma AddEdgeOk(g: Graph, a: Id, b: Id, level: int)
    requires EdgesOk(g) && a in g && b in g && a != b
    requires 0 <= level <= g[a].level && level <= g[b].level
    ensures var r := AddEdge(g, a, b, level);
      && EdgesOk(r)
      && Nbrs(r, a, level) == Nbrs(g, a, level) + {b}
      && Nbrs(r, b, level) == Nbrs(g, b, level) + {a}
      && forall c, l :: (c != a && c != b) || l != level ==> Nbrs(r, c, l) == Nbrs(g, c, l)
  {
    var r := AddEdge(g, a, b, level);
    forall x, y, l | y in Nbrs(r, x, l)
      ensures EdgeOk(r, x, y, l)
    {
      assert y in Nbrs(g, x, l) ==> EdgeOk(g, x, y, l);
    }
  }

  /** Node `n` keeps only the neighbours `keep`; each neighbour it drops forgets `n`. */
  ghost function Prune(g: Graph, n: Id, level: int, keep: set<Id>): (r: Graph)
    requires n in g
    ensures SameNodes(g, r)
  {
    map a | a in g ::
      if a == n then With(g[a], level, keep)
      else if a in Nbrs(g, n, level) - keep then With(g[a], level, Nbrs(g, a, level) - {n})
      else g[a]
  }

  lemma PruneOk(g: Graph, n: Id, level: int, keep: set<Id>)
    requires EdgesOk(g) && n in g && keep <= Nbrs(g, n, level)
    ensures var r := Prune(g, n, level, keep);
      && EdgesOk(r) && OtherLevelsSame(g, r, level)
      && Nbrs(r, n, level) == keep
      && forall a, l :: a != n ==> Nbrs(r, a, l) <= Nbrs(g, a, l)
  {
    var r := Prune(g, n, level, keep);
    forall x, y, l | y in Nbrs(r, x, l)
      ensures EdgeOk(r, x, y, l)
    {
      assert EdgeOk(g, x, y, l);
      if l == level && y == n {
        assert x in Nbrs(g, n, level) && x in keep;
      }
    }
  }

  ghost function Kept(cfg: Config, g: Graph, n: Id, level: int): set<Id>
    requires n in g
  {
    Elems(Selected(cfg, g, g[n].vector, Nbrs(g, n, level), level))
  }

  /** One round of `ConnectNeighbors`: link `id` and `n`, then prune `n` if it is over its bound. */
  ghost function ConnectOne(cfg: Config, g: Graph, id: Id, n: Id, level: int): (r: Graph)
    requires id in g && n in g
    ensures SameNodes(g, r)
  {
    if !g[n].active then g
    else
      var g1 := AddEdge(g, id, n, level);
      if |Nbrs(g1, n, level)| <= Cap(cfg, level) then g1
      else Prune(g1, n, level, Kept(cfg, g1, n, level))
  }

  ghost function ConnectAll(cfg: Config, g: Graph, id: Id, ns: seq<Id>, level: int): (r: Graph)
    requires id in g && Elems(ns) <= g.Keys
    ensures SameNodes(g, r)
  {
    if ns == [] then g
    else
      assert ns[0] in Elems(ns) && Elems(ns[1..]) <= Elems(ns);
      ConnectAll(cfg, ConnectOne(cfg, g, id, ns[0], level), id, ns[1..], level)
  }

  ghost predicate OtherLevelsSame(g: Graph, h: Graph, level: int) {
    forall a, l :: l != level ==> Nbrs(g, a, l) == Nbrs(h, a, l)
  }

  lemma ConnectOneOk(cfg: Config, g: Graph, id: Id, n: Id, level: int)
    requires GraphOk(cfg, g) && id in g && n in g && id != n
    requires 0 <= level <= g[id].level && level <= g[n].level
    requires |Nbrs(g, id, level)| < Cap(cfg, level)
    ensures var h := ConnectOne(cfg, g, id, n, level);
      && GraphOk(cfg, h) && OtherLevelsSame(g, h, level)
      && |Nbrs(h, id, level)| <= |Nbrs(g, id, level)| + 1
  {
    if g[n].active {
      var g1 := AddEdge(g, id, n, level);
      AddEdgeOk(g, id, n, level);
      AddEdgeDegrees(cfg, g, id, n, level);
      if |Nbrs(g1, n, level)| > Cap(cfg, level) {
        PruneToCap(cfg, g1, n, level);
      }
    }
  }

  /** Only the other end can be over its bound after an edge is added. */
  lemma AddEdgeDegrees(cfg: Config, g: Graph, id: Id, n: Id, level: int)
    requires GraphOk(cfg, g) && id in g && n in g && id != n
    requires 0 <= level <= g[id].level && level <= g[n].level
    requires |Nbrs(g, id, level)| < Cap(cfg, level)
    ensures forall a, l :: !(a == n && l == level) ==> |Nbrs(AddEdge(g, id, n, level), a, l)| <= Cap(cfg, l)
  {
    AddEdgeOk(g, id, n, level);
    forall a, l | !(a == n && l == level)
      ensures |Nbrs(AddEdge(g, id, n, level), a, l)| <= Cap(cfg, l)
    {
      assert |Nbrs(g, a, l)| <= Cap(cfg, l);
    }
  }

  /** One connection keeps the edge invariant whatever the degrees are. */
  lemma ConnectOneEdges(cfg: Config, g: Graph, id: Id, n: Id, level: int)
    requires EdgesOk(g) && id in g && n in g && id != n
    requires 0 <= level <= g[id].level && level <= g[n].level
    ensures EdgesOk(ConnectOne(cfg, g, id, n, level))
  {
    if g[n].active {
      var g1 := AddEdge(g, id, n, level);
      AddEdgeOk(g, id, n, level);
      SelectedMeaning(cfg, g1, g1[n].vector, Nbrs(g1, n, level), level);
      PruneOk(g1, n, level, Kept(cfg, g1, n, level));
    }
  }

  lemma SameScore(cfg: Config, g: Graph, h: Graph, query: Vector)
    requires SameNodes(g, h)
    ensures forall a :: Score(cfg, g, query, a) == Score(cfg, h, query, a)
    ensures forall ids :: ActiveOf(g, ids) == ActiveOf(h, ids)
  {
    forall a
      ensures Score(cfg, g, query, a) == Score(cfg, h, query, a)
    {
      assert a in g <==> a in h;
    }
    forall ids
      ensures ActiveOf(g, ids) == ActiveOf(h, ids)
    {
      assert forall a :: Active(g, a) <==> Active(h, a);
    }
  }

  /** One connection either just adds the edge, or leaves the neighbour with the closest active ones of its
      old neighbours and the new node. */
  lemma ConnectOneMeaning(cfg: Config, g: Graph, id: Id, n: Id, level: int)
    requires EdgesOk(g) && id in g && Active(g, n) && id != n
    requires 0 <= level <= g[id].level && level <= g[n].level
    ensures var h := ConnectOne(cfg, g, id, n, level);
      var all := Nbrs(g, n, level) + {id};
      var kept := Nbrs(h, n, level);
      if |all| <= Cap(cfg, level) then kept == all
      else
        && kept <= ActiveOf(g, all) && |kept| == Min(Cap(cfg, level), |ActiveOf(g, all)|)
        && forall a, b :: a in kept && b in ActiveOf(g, all) - kept ==>
             Less(Score(cfg, g, g[n].vector, a), Score(cfg, g, g[n].vector, b))
  {
    var g1 := AddEdge(g, id, n, level);
    AddEdgeOk(g, id, n, level);
    SameScore(cfg, g, g1, g[n].vector);
    var all := Nbrs(g, n, level) + {id};
    if |all| > Cap(cfg, level) {
      SelectedMeaning(cfg, g1, g1[n].vector, Nbrs(g1, n, level), level);
      PruneOk(g1, n, level, Kept(cfg, g1, n, level));
    }
  }

  /** What it does elsewhere: the new node gets the neighbour, those that the neighbour drops forget it, and nothing
      else changes. */
  lemma ConnectOneElsewhere(cfg: Config, g: Graph, id: Id, n: Id, level: int, b: Id)
    requires EdgesOk(g) && id in g && Active(g, n) && id != n && b != n
    requires 0 <= level <= g[id].level && level <= g[n].level
    ensures var h := ConnectOne(cfg, g, id, n, level);
      && (b in Nbrs(g, n, level) + {id} - Nbrs(h, n, level) ==>
            Nbrs(h, b, level) == Nbrs(g, b, level) + (if b == id then {n} else {}) - {n})
      && (b !in Nbrs(g, n, level) + {id} - Nbrs(h, n, level) ==>
            Nbrs(h, b, level) == Nbrs(g, b, level) + (if b == id then {n} else {}))
  {
    var g1 := AddEdge(g, id, n, level);
    AddEdgeOk(g, id, n, level);
    if |Nbrs(g1, n, level)| > Cap(cfg, level) {
      var keep := Kept(cfg, g1, n, level);
      KeptFew(cfg, g1, n, level);
      assert Nbrs(Prune(g1, n, level, keep), n, level) == keep by { PruneOk(g1, n, level, keep); }
      PruneElsewhere(g1, n, level, keep, b);
    }
  }

  lemma KeptFew(cfg: Config, g: Graph, n: Id, level: int)
    requires n in g
    ensures Kept(cfg, g, n, level) <= Nbrs(g, n, level)
  {
    SelectedMeaning(cfg, g, g[n].vector, Nbrs(g, n, level), level);
  }

  lemma PruneElsewhere(g: Graph, n: Id, level: int, keep: set<Id>, b: Id)
    requires EdgesOk(g) && n in g && keep <= Nbrs(g, n, level) && b != n
    ensures Nbrs(Prune(g, n, level, keep), b, level) ==
      Nbrs(g, b, level) - if b in Nbrs(g, n, level) - keep then {n} else {}
  {
    if b in Nbrs(g, n, level) {
      assert EdgeOk(g, n, b, level);
    }
  }

  /** The chosen neighbours are connected one after another, the first one first. */
  lemma {:induction false} ConnectAllSnoc(cfg: Config, g: Graph, id: Id, ns: seq<Id>, n: Id, level: int)
    requires id in g && n in g && Elems(ns) <= g.Keys
    ensures Elems(ns + [n]) <= g.Keys
    ensures ConnectAll(cfg, g, id, ns + [n], level) == ConnectOne(cfg, ConnectAll(cfg, g, id, ns, level), id, n, level)
    decreases |ns|
  {
    assert Elems(ns + [n]) == Elems(ns) + {n};
    if ns == [] {
      assert ns + [n] == [n] && [n][1..] == [];
    } else {
      assert ns[0] in Elems(ns) && Elems(ns[1..]) <= Elems(ns);
      assert (ns + [n])[0] == ns[0] && (ns + [n])[1..] == ns[1..] + [n];
      ConnectAllSnoc(cfg, ConnectOne(cfg, g, id, ns[0], level), id, ns[1..], n, level);
    }
  }

  lemma PruneToCap(cfg: Config, g: Graph, n: Id, level: int)
    requires EdgesOk(g) && NodesOk(cfg, g) && n in g
    requires forall a, l :: !(a == n && l == level) ==> |Nbrs(g, a, l)| <= Cap(cfg, l)
    ensures var h := Prune(g, n, level, Kept(cfg, g, n, level));
      && GraphOk(cfg, h) && OtherLevelsSame(g, h, level)
      && forall a :: a != n ==> |Nbrs(h, a, level)| <= |Nbrs(g, a, level)|
  {
    var keep := Kept(cfg, g, n, level);
    SelectedMeaning(cfg, g, g[n].vector, Nbrs(g, n, level), level);
    PruneOk(g, n, level, keep);
    SmallerSets(cfg, g, Prune(g, n, level, keep), n, level);
  }

  lemma SmallerSets(cfg: Config, g: Graph, h: Graph, n: Id, level: int)
    requires forall a, l :: !(a == n && l == level) ==> |Nbrs(g, a, l)| <= Cap(cfg, l)
    requires forall a, l :: !(a == n && l == level) ==> Nbrs(h, a, l) <= Nbrs(g, a, l)
    requires |Nbrs(h, n, level)| <= Cap(cfg, level)
    ensures DegreesOk(cfg, h)
    ensures forall a :: a != n ==> |Nbrs(h, a, level)| <= |Nbrs(g, a, level)|
  {
    forall a, l | !(a == n && l == level)
      ensures |Nbrs(h, a, l)| <= |Nbrs(g, a, l)|
    {
      SubsetSize(Nbrs(h, a, l), Nbrs(g, a, l));
    }
  }

  /** Connecting a new node at one level keeps the graph invariant, degrees of every node included,
      whatever the chosen neighbours are pruned to. */
  lemma {:induction false} ConnectAllOk(cfg: Config, g: Graph, id: Id, ns: seq<Id>, level: int)
    requires GraphOk(cfg, g) && id in g && Elems(ns) <= g.Keys && id !in ns
    requires 0 <= level <= g[id].level && forall n :: n in ns ==> level <= g[n].level
    requires |Nbrs(g, id, level)| + |ns| <= Cap(cfg, level)
    ensures var h := ConnectAll(cfg, g, id, ns, level);
      GraphOk(cfg, h) && OtherLevelsSame(g, h, level)
  {
    if ns == [] {
    } else {
      assert ns[0] in Elems(ns);
      ConnectOneOk(cfg, g, id, ns[0], level);
      assert forall n :: n in ns[1..] ==> n in ns;
      ConnectAllOk(cfg, ConnectOne(cfg, g, id, ns[0], level), id, ns[1..], level);
    }
  }
}
