/** Small tables are searched exactly. As long as at most `m0 + 1` nodes were inserted and none was
    removed, nothing is pruned at level 0, the level-0 graph stays connected, and a search with room for
    every node returns the same list as the exact index, tie-breaks included. */
module HnswExact {
  import opened Ranking
  import opened HnswGraph
  import opened BeamSearch
  import opened HnswState
  import opened HnswRuns
  import opened FlatIndexes

  ghost predicate Leaves(g: Graph, S: set<Id>) {
    exists a, b :: a in S && b in Nbrs(g, a, 0) && b !in S
  }

  /** Every level-0 cut is crossed by an edge. */
  ghost predicate Connected(g: Graph) {
    forall S :: {} < S < g.Keys ==> Leaves(g, S)
  }

  ghost predicate Path(g: Graph, p: seq<Id>, a: Id, b: Id) {
    p != [] && p[0] == a && p[|p| - 1] == b && forall i :: 0 <= i < |p| - 1 ==> p[i + 1] in Nbrs(g, p[i], 0)
  }

  /** The cut condition is the usual one: any two nodes are joined by a path. */
  lemma ConnectedMeaning(g: Graph, a: Id, b: Id)
    requires EdgesOk(g) && Connected(g) && a in g && b in g
    ensures exists p :: Path(g, p, a, b)
  {
    var R := set c | c in g && exists p :: Path(g, p, a, c);
    assert Path(g, [a], a, a);
    assert a in R;
    forall c, d | c in R && d in Nbrs(g, c, 0)
      ensures d in R
    {
      var p :| Path(g, p, a, c);
      assert EdgeOk(g, c, d, 0);
      assert Path(g, p + [d], a, d);
    }
    assert !Leaves(g, R);
  }

  ghost predicate Small(cfg: Config, s: State) {
    && StateOk(cfg, s)
    && |s.nodes.Keys| <= cfg.m0 + 1
    && (forall a :: a in s.nodes ==> s.nodes[a].active)
    && Connected(s.nodes)
  }

  // ----- insertion

  ghost predicate Grows(g: Graph, h: Graph) {
    SameNodes(g, h) && forall a :: Nbrs(g, a, 0) <= Nbrs(h, a, 0)
  }

  lemma DegreeBelowCount(g: Graph, n: Id)
    requires EdgesOk(g) && n in g
    ensures |Nbrs(g, n, 0)| < |g.Keys|
  {
    assert forall b :: b in Nbrs(g, n, 0) ==> EdgeOk(g, n, b, 0);
    SubsetSize(Nbrs(g, n, 0), g.Keys - {n});
    assert g.Keys == (g.Keys - {n}) + {n};
  }

  lemma AddEdgeGrows(g: Graph, id: Id, n: Id)
    requires EdgesOk(g) && id in g && n in g && id != n
    ensures var h := AddEdge(g, id, n, 0);
      Grows(g, h) && EdgesOk(h) && n in Nbrs(h, id, 0) && id in Nbrs(h, n, 0)
  {
    AddEdgeOk(g, id, n, 0);
  }

  /** With so few nodes there is never anything to prune. */
  lemma ConnectOneGrows(cfg: Config, g: Graph, id: Id, n: Id)
    requires EdgesOk(g) && id in g && Active(g, n) && id != n && |g.Keys| <= cfg.m0 + 1
    ensures var h := ConnectOne(cfg, g, id, n, 0);
      Grows(g, h) && EdgesOk(h) && n in Nbrs(h, id, 0) && id in Nbrs(h, n, 0)
  {
    var h := AddEdge(g, id, n, 0);
    AddEdgeGrows(g, id, n);
    DegreeBelowCount(h, n);
    assert ConnectOne(cfg, g, id, n, 0) == h;
  }

  lemma GrowsChain(g: Graph, h: Graph, r: Graph)
    requires Grows(g, h) && Grows(h, r)
    ensures Grows(g, r)
  {}

  lemma {:induction false} ConnectAllGrows(cfg: Config, g: Graph, id: Id, ns: seq<Id>)
    requires EdgesOk(g) && id in g && Elems(ns) <= ActiveIds(g) - {id} && |g.Keys| <= cfg.m0 + 1
    ensures var h := ConnectAll(cfg, g, id, ns, 0);
      && Grows(g, h)
      && (forall n :: n in ns ==> n in Nbrs(h, id, 0) && id in Nbrs(h, n, 0))
  {
    if ns == [] {
    } else {
      assert ns[0] in Elems(ns) && Elems(ns[1..]) <= Elems(ns);
      var h := ConnectOne(cfg, g, id, ns[0], 0);
      ConnectOneGrows(cfg, g, id, ns[0]);
      assert ActiveIds(h) == ActiveIds(g);
      ConnectAllGrows(cfg, h, id, ns[1..]);
      GrowsChain(g, h, ConnectAll(cfg, h, id, ns[1..], 0));
    }
  }

  /** The new node is linked into level 0, and no level-0 edge is lost. */
  ghost predicate Linked(g: Graph, h: Graph, id: Id) {
    && h.Keys == g.Keys && (forall a :: Nbrs(g, a, 0) <= Nbrs(h, a, 0))
    && exists n :: n in g.Keys - {id} && n in Nbrs(h, id, 0) && id in Nbrs(h, n, 0)
  }

  lemma ConnectAtLinks(cfg: Config, g: Graph, id: Id, vector: Vector, entry: Id)
    requires Connecting(cfg, g, id, entry, 0)
    requires |g.Keys| <= cfg.m0 + 1 && cfg.m0 > 0 && cfg.efConstruction > 0
    ensures Linked(g, ConnectAt(cfg, g, id, vector, entry, 0), id)
  {
    ChosenOk(cfg, g, id, vector, entry, 0);
    var ns := Chosen(cfg, g, vector, entry, 0);
    ConnectAllGrows(cfg, g, id, ns);
    assert ns[0] in Elems(ns);
  }

  /** `h` is `g` with the node `id` linked in. */
  ghost predicate Extends(g: Graph, h: Graph, id: Id) {
    && id !in g && h.Keys == g.Keys + {id}
    && (forall a :: Nbrs(g, a, 0) <= Nbrs(h, a, 0))
    && exists n :: n in g && n in Nbrs(h, id, 0) && id in Nbrs(h, n, 0)
  }

  lemma ExtendsConnected(g: Graph, h: Graph, id: Id)
    requires EdgesOk(g) && Connected(g) && Extends(g, h, id)
    ensures Connected(h)
  {
    var n :| n in g && n in Nbrs(h, id, 0) && id in Nbrs(h, n, 0);
    forall S | {} < S < h.Keys
      ensures Leaves(h, S)
    {
      var T := S - {id};
      if T == {} {
        assert id in S && n !in S;
      } else if T == g.Keys {
        assert id !in S && n in S;
      } else {
        assert T < g.Keys;
        assert Leaves(g, T);
        var a, b :| a in T && b in Nbrs(g, a, 0) && b !in T;
        assert EdgeOk(g, a, b, 0);
        assert b in Nbrs(h, a, 0) && b !in S;
      }
    }
  }

  lemma FreshLinked(cfg: Config, g: Graph, id: Id, vector: Vector, h0: Graph, h: Graph)
    requires id !in g && h0.Keys == g.Keys + {id} && Linked(h0, h, id)
    requires forall a :: Nbrs(Fresh(cfg, g, id, vector), a, 0) == Nbrs(h0, a, 0)
    ensures Extends(g, h, id)
  {
    forall a
      ensures Nbrs(g, a, 0) <= Nbrs(h, a, 0)
    {
      if a != id {
        assert Nbrs(g, a, 0) == Nbrs(Fresh(cfg, g, id, vector), a, 0) == Nbrs(h0, a, 0);
      }
    }
  }

  /** An effective insertion into a small table with an entry point. */
  lemma InsertLinks(cfg: Config, s: State, id: Id, vector: Vector)
    requires StateOk(cfg, s) && s.entry.Some? && |vector| == cfg.dim && id !in s.nodes
    requires |s.nodes.Keys| <= cfg.m0 && cfg.efConstruction > 0 && cfg.m0 > 0
    ensures Extends(s.nodes, InsertResult(cfg, s, id, vector).nodes, id)
  {
    var entry, h0 := InsertReachesZero(cfg, s, id, vector);
    ConnectAtLinks(cfg, h0, id, vector, entry);
    FreshLinked(cfg, s.nodes, id, vector, h0, ConnectAt(cfg, h0, id, vector, entry, 0));
  }

  ghost predicate Joined(g: Graph, h: Graph, id: Id) {
    && h.Keys == g.Keys + {id}
    && (forall a :: a in g ==> g[a].active) && (forall a :: a in h ==> h[a].active)
  }

  lemma InsertJoins(cfg: Config, s: State, id: Id, vector: Vector) returns (h: Graph)
    requires |vector| == cfg.dim && id !in s.nodes && forall a :: a in s.nodes ==> s.nodes[a].active
    ensures h == InsertResult(cfg, s, id, vector).nodes && Joined(s.nodes, h, id)
  {
    h := InsertResult(cfg, s, id, vector).nodes;
    InsertAdds(cfg, s, id, vector);
  }

  lemma OneNodeConnected(g: Graph, h: Graph, id: Id)
    requires Joined(g, h, id) && ActiveIds(g) == {}
    ensures Connected(h)
  {
    assert forall a :: a in g ==> a in ActiveIds(g);
    assert h.Keys == {id};
  }

  lemma InsertSmall(cfg: Config, s: State, id: Id, vector: Vector)
    requires Small(cfg, s) && cfg.m0 > 0 && cfg.efConstruction > 0
    requires |InsertResult(cfg, s, id, vector).nodes.Keys| <= cfg.m0 + 1
    ensures Small(cfg, InsertResult(cfg, s, id, vector))
  {
    InsertOk(cfg, s, id, vector);
    if |vector| == cfg.dim && id !in s.nodes {
      InsertConnected(cfg, s, id, vector);
    }
  }

  lemma InsertConnected(cfg: Config, s: State, id: Id, vector: Vector)
    requires StateOk(cfg, s) && Connected(s.nodes) && (forall a :: a in s.nodes ==> s.nodes[a].active)
    requires |vector| == cfg.dim && id !in s.nodes && cfg.m0 > 0 && cfg.efConstruction > 0
    requires |InsertResult(cfg, s, id, vector).nodes.Keys| <= cfg.m0 + 1
    ensures var h := InsertResult(cfg, s, id, vector).nodes;
      Connected(h) && forall a :: a in h ==> h[a].active
  {
    var h := InsertJoins(cfg, s, id, vector);
    if s.entry.Some? {
      assert |h.Keys| == |s.nodes.Keys| + 1;
      InsertLinks(cfg, s, id, vector);
      ExtendsConnected(s.nodes, h, id);
    } else {
      OneNodeConnected(s.nodes, h, id);
    }
  }

  lemma InsertKeys(cfg: Config, s: State, id: Id, vector: Vector)
    ensures s.nodes.Keys <= InsertResult(cfg, s, id, vector).nodes.Keys
  {
    if |vector| == cfg.dim && id !in s.nodes {
      InsertAdds(cfg, s, id, vector);
    }
  }

  lemma {:induction false} InsertAllKeys(cfg: Config, s: State, items: seq<(Id, Vector)>)
    ensures s.nodes.Keys <= InsertAll(cfg, s, items).nodes.Keys
    decreases |items|
  {
    if items == [] {
    } else {
      InsertKeys(cfg, s, items[0].0, items[0].1);
      InsertAllKeys(cfg, InsertResult(cfg, s, items[0].0, items[0].1), items[1..]);
    }
  }

  /** Insertions alone, in any order and with any duplicates or bad sizes among them, keep a table small
      until it outgrows `m0 + 1` nodes. */
  lemma {:induction false} InsertAllSmall(cfg: Config, s: State, items: seq<(Id, Vector)>)
    requires Small(cfg, s) && cfg.m0 > 0 && cfg.efConstruction > 0
    requires |InsertAll(cfg, s, items).nodes.Keys| <= cfg.m0 + 1
    ensures Small(cfg, InsertAll(cfg, s, items))
    decreases |items|
  {
    if items == [] {
    } else {
      var t := InsertResult(cfg, s, items[0].0, items[0].1);
      InsertAllKeys(cfg, t, items[1..]);
      SubsetSize(t.nodes.Keys, InsertAll(cfg, t, items[1..]).nodes.Keys);
      InsertSmall(cfg, s, items[0].0, items[0].1);
      InsertAllSmall(cfg, t, items[1..]);
    }
  }

  lemma EmptySmall(cfg: Config)
    ensures Small(cfg, EMPTY)
  {}

  // ----- search

  lemma ProperNotClosed(g: Graph, C: set<Id>)
    requires EdgesOk(g) && Connected(g) && {} < C < g.Keys
    requires forall a :: a in g ==> g[a].active
    ensures !Closed(g, 0, C)
  {
    assert Leaves(g, C);
    var a, b :| a in C && b in Nbrs(g, a, 0) && b !in C;
    assert EdgeOk(g, a, b, 0);
    assert b in ActiveNbrs(g, a, 0);
  }

  /** In a connected graph without soft-removed nodes, a search with room for every node visits them all. */
  lemma VisitsAll(cfg: Config, g: Graph, query: Vector, entry: Id, ef: nat)
    requires EdgesOk(g) && Connected(g) && entry in g && ef >= |g.Keys| && ef > 0
    requires forall a :: a in g ==> g[a].active
    ensures Visited(cfg, g, query, entry, ef, 0) == g.Keys
  {
    SearchLevelMeaning(cfg, g, query, entry, ef, 0);
    var visited := Visited(cfg, g, query, entry, ef, 0);
    SubsetSize(visited, g.Keys);
    RoomForAll(cfg, g, query, entry, ef, 0);
    if visited < g.Keys {
      ProperNotClosed(g, visited);
    }
  }

  lemma FindsAll(cfg: Config, g: Graph, query: Vector, entry: Id, ef: nat)
    requires EdgesOk(g) && Connected(g) && entry in g && ef >= |g.Keys|
    requires forall a :: a in g ==> g[a].active
    ensures ef > 0
    ensures SearchLevel(cfg, g, query, entry, ef, 0) == Ids(Rank(Scores(cfg, g, query, g.Keys)))
  {
    SubsetSize({entry}, g.Keys);
    VisitsAll(cfg, g, query, entry, ef);
    FinalFound(cfg, g, query, entry, ef, 0);
    ScoresSize(cfg, g, query, g.Keys);
    SubsetSize(Final(cfg, g, query, entry, ef, 0).top, Scores(cfg, g, query, g.Keys));
  }

  lemma TakeIds(r: seq<Pair>, k: nat)
    ensures Take(Ids(r), k) == Ids(Take(r, k))
  {}

  lemma SearchFindsAll(cfg: Config, s: State, query: Vector, k: nat, ef: nat)
    requires Small(cfg, s) && ef >= |s.nodes.Keys|
    ensures SearchResult(cfg, s, query, k, ef) == Ids(Take(Rank(Scores(cfg, s.nodes, query, s.nodes.Keys)), k))
  {
    var g := s.nodes;
    var r := Rank(Scores(cfg, g, query, g.Keys));
    if s.entry == None {
      assert forall a :: a in g ==> a in ActiveIds(g);
      ScoresSize(cfg, g, query, {});
      assert g.Keys == {};
    } else {
      SubsetSize({s.entry.value}, g.Keys);
      DescendOk(cfg, g, query, s.entry.value, ef, s.maxLevel, 0, {});
      FindsAll(cfg, g, query, Descend(cfg, g, query, s.entry.value, ef, s.maxLevel, 0), ef);
      TakeIds(r, k);
    }
  }

  lemma SearchExact(cfg: Config, s: State, query: Vector, k: nat, ef: nat)
    requires Small(cfg, s) && |query| == cfg.dim && ef >= |s.nodes.Keys|
    ensures SearchResult(cfg, s, query, k, ef) == Nearest(FlatConfig(cfg.dim, cfg.dist), Vectors(s.nodes), query, k)
  {
    SearchFindsAll(cfg, s, query, k, ef);
    SameScores(cfg, s.nodes, query);
  }

  lemma SameScores(cfg: Config, g: Graph, query: Vector)
    ensures Scored(FlatConfig(cfg.dim, cfg.dist), Vectors(g), query, Vectors(g).Keys) == Scores(cfg, g, query, g.Keys)
  {
    assert Vectors(g).Keys == g.Keys;
  }

  /** Built by insertions alone: the graph index answers exactly like the exact index. */
  lemma SmallTableExact(cfg: Config, items: seq<(Id, Vector)>, query: Vector, k: nat, ef: nat)
    requires cfg.m0 > 0 && cfg.efConstruction > 0 && |query| == cfg.dim
    requires var s := InsertAll(cfg, EMPTY, items); |s.nodes.Keys| <= cfg.m0 + 1 && ef >= |s.nodes.Keys|
    ensures var s := InsertAll(cfg, EMPTY, items);
      SearchResult(cfg, s, query, k, ef) == Nearest(FlatConfig(cfg.dim, cfg.dist), Vectors(s.nodes), query, k)
  {
    EmptySmall(cfg);
    InsertAllSmall(cfg, EMPTY, items);
    SearchExact(cfg, InsertAll(cfg, EMPTY, items), query, k, ef);
  }

  ghost function ActiveVectors(g: Graph): map<Id, Vector> {
    map a | a in ActiveIds(g) :: g[a].vector
  }

  /** After any history, a cleanup with a reindex makes the answers over the active nodes exact again. */
  lemma RebuiltTableExact(cfg: Config, s: State, t: State, query: Vector, k: nat, ef: nat)
    requires StateOk(cfg, s) && ReindexStep(cfg, CleanupResult(s), t)
    requires cfg.m0 > 0 && cfg.efConstruction > 0 && |query| == cfg.dim
    requires |ActiveIds(s.nodes)| <= cfg.m0 + 1 && ef >= |ActiveIds(s.nodes)|
    ensures SearchResult(cfg, t, query, k, ef) ==
      Nearest(FlatConfig(cfg.dim, cfg.dist), ActiveVectors(s.nodes), query, k)
  {
    CleanupOk(cfg, s);
    RebuildKeeps(cfg, s, t);
    RebuiltVectors(s.nodes, t.nodes);
    RebuiltSmall(cfg, CleanupResult(s), t);
    SearchExact(cfg, t, query, k, ef);
  }

  lemma RebuiltVectors(g: Graph, h: Graph)
    requires Renewed(h, g, ActiveIds(g))
    ensures Vectors(h) == ActiveVectors(g)
  {}

  lemma RebuiltSmall(cfg: Config, s: State, t: State)
    requires ReindexStep(cfg, s, t) && cfg.m0 > 0 && cfg.efConstruction > 0 && |t.nodes.Keys| <= cfg.m0 + 1
    ensures Small(cfg, t)
  {
    var items: seq<(Id, Vector)> :| Lists(items, Vectors(s.nodes)) && t == InsertAll(cfg, EMPTY, items);
    EmptySmall(cfg);
    InsertAllSmall(cfg, EMPTY, items);
  }
}
