/** The index object itself: the fields and loops of engine/src/index/hnsw_index.cc, each method proved to
    do what the state machine of `HnswState` says. Hash maps and hash sets are iterated in any order. */
module HnswIndexes {
  import opened Ranking
  import opened HnswGraph
  import Beams = BeamSearch
  import opened HnswState
  import opened HnswRuns

  class HNSWIndex {
    const cfg: Config
    var nodes: Graph
    var nodeLevels: map<int, set<Id>>
    var maxLevel: int
    var entryPoint: Option<Id>

    ghost function Abs(): State
      reads this
    {
      State(nodes, nodeLevels, maxLevel, entryPoint)
    }

    ghost predicate Valid()
      reads this
    {
      StateOk(cfg, Abs())
    }

    constructor (cfg: Config)
      ensures this.cfg == cfg && Abs() == EMPTY && Valid()
    {
      this.cfg := cfg;
      nodes := map[];
      nodeLevels := map[];
      maxLevel := -1;
      entryPoint := None;
      new;
      EmptyOk(cfg);
    }

    // ----- search

    /** Offers every unvisited active neighbour of one node as a candidate. */
    method Expand(query: Vector, id: Id, level: int, candidates: seq<Pair>, visited: set<Id>)
        returns (candidates': seq<Pair>, visited': set<Id>)
      requires EdgesOk(nodes) && id in nodes && Sorted(candidates)
      requires forall p :: p in Elems(candidates) ==> p.id in visited
      ensures visited' == visited + Beams.ActiveNbrs(nodes, id, level)
      ensures Sorted(candidates')
      ensures Elems(candidates') ==
        Elems(candidates) + Scores(cfg, nodes, query, Beams.ActiveNbrs(nodes, id, level) - visited)
    {
      candidates', visited' := candidates, visited;
      if level !in nodes[id].neighbors {
        return;
      }
      var rest := nodes[id].neighbors[level];
      while rest != {}
        invariant rest <= Nbrs(nodes, id, level)
        invariant Sorted(candidates')
        invariant visited' == visited + ActiveOf(nodes, Nbrs(nodes, id, level) - rest)
        invariant forall p :: p in Elems(candidates') <==>
          p in Elems(candidates) || (p.id in visited' - visited && p == Score(cfg, nodes, query, p.id))
      {
        var neighbor :| neighbor in rest;
        rest := rest - {neighbor};
        assert EdgeOk(nodes, id, neighbor, level);
        if neighbor in visited' || !nodes[neighbor].active {
          continue;
        }
        visited' := visited' + {neighbor};
        var p := Pair(cfg.dist(query, nodes[neighbor].vector), neighbor);
        assert p !in Elems(candidates');
        candidates' := Push(candidates', p);
      }
      assert Nbrs(nodes, id, level) - rest == Nbrs(nodes, id, level);
    }

    /** The rest of a loop round once the nearest candidate is not too far. */
    method Round(query: Vector, ef: nat, level: int, candidates: seq<Pair>, top: seq<Pair>, visited: set<Id>)
        returns (candidates': seq<Pair>, top': seq<Pair>, visited': set<Id>)
      requires EdgesOk(nodes) && Sorted(candidates) && Sorted(top) && candidates != [] && ef > 0
      requires Beams.BeamOk(cfg, nodes, query, ef, level, Beams.Beam(Elems(candidates), Elems(top), visited))
      ensures Sorted(candidates') && Sorted(top')
      ensures Elems(candidates) != {}
      ensures Beams.Beam(Elems(candidates'), Elems(top'), visited') ==
        Beams.Round(cfg, nodes, query, ef, level, Beams.Beam(Elems(candidates), Elems(top), visited))
    {
      HeapsOk(candidates, top, ef, visited);
      var p := candidates[0];
      assert p in Elems(candidates) && p.id in visited && Active(nodes, p.id);
      top' := top;
      if |top'| == ef {
        top' := top'[..|top'| - 1];
      }
      assert p !in Elems(top) && p !in Elems(top');
      top' := Push(top', p);
      candidates', visited' := Expand(query, p.id, level, candidates[1..], visited);
      assert visited + Beams.ActiveNbrs(nodes, p.id, level) ==
        visited + (Beams.ActiveNbrs(nodes, p.id, level) - visited);
    }

    method SearchLevel(query: Vector, entry: Option<Id>, ef: nat, level: int) returns (nearest: seq<Id>)
      requires EdgesOk(nodes) && (entry.Some? ==> Active(nodes, entry.value))
      ensures nearest == if entry == None then [] else Beams.SearchLevel(cfg, nodes, query, entry.value, ef, level)
    {
      if entry == None || ef == 0 {
        return [];
      }
      var top := Best(query, entry.value, ef, level);
      SortedUnique(top, Rank(Elems(top)));
      nearest := Drain(top);
    }

    method Best(query: Vector, entry: Id, ef: nat, level: int) returns (top: seq<Pair>)
      requires EdgesOk(nodes) && Active(nodes, entry) && ef > 0
      ensures Sorted(top) && Elems(top) == Beams.Final(cfg, nodes, query, entry, ef, level).top
    {
      var candidates := [Pair(cfg.dist(query, nodes[entry].vector), entry)];
      var visited := {entry};
      top := [];
      ghost var final := Beams.Final(cfg, nodes, query, entry, ef, level);
      ghost var b := StartOk(cfg, nodes, query, entry, ef, level);

      while candidates != []
        invariant Sorted(candidates) && Sorted(top)
        invariant b == Beams.Beam(Elems(candidates), Elems(top), visited)
        invariant Beams.BeamOk(cfg, nodes, query, ef, level, b)
        invariant Beams.Explore(cfg, nodes, query, ef, level, b) == final
        decreases |nodes.Keys - b.visited|, |b.candidates|
      {
        HeapsOk(candidates, top, ef, visited);
        if |top| == ef && candidates[0].dist > top[|top| - 1].dist {
          break;
        }
        candidates, top, visited := Round(query, ef, level, candidates, top, visited);
        b := NextRound(cfg, nodes, query, ef, level, b);
        assert Beams.Explore(cfg, nodes, query, ef, level, b) == final;
      }
    }

    // ----- selection and connection

    method SelectNeighbors(query: Vector, candidates: seq<Id>, level: int) returns (selected: seq<Id>)
      requires Elems(candidates) <= nodes.Keys
      requires forall i, j :: 0 <= i < j < |candidates| ==> candidates[i] != candidates[j]
      ensures selected == Selected(cfg, nodes, query, Elems(candidates), level)
    {
      var distances := CandidateDistances(query, candidates);
      SortedUnique(distances, Rank(Elems(distances)));
      var maxNeighbors := if level == 0 then cfg.m0 else cfg.m;
      selected := [];
      var j := 0;
      while j < |distances| && j < maxNeighbors
        invariant 0 <= j <= |distances| && j <= maxNeighbors
        invariant selected == Ids(distances[..j])
      {
        selected := selected + [distances[j].id];
        j := j + 1;
      }
      assert distances[..j] == Take(distances, maxNeighbors);
    }

    /** The active candidates with their distances, sorted. */
    method CandidateDistances(query: Vector, candidates: seq<Id>) returns (distances: seq<Pair>)
      requires Elems(candidates) <= nodes.Keys
      requires forall i, j :: 0 <= i < j < |candidates| ==> candidates[i] != candidates[j]
      ensures Sorted(distances)
      ensures Elems(distances) == Scores(cfg, nodes, query, ActiveOf(nodes, Elems(candidates)))
    {
      distances := [];
      var i := 0;
      while i < |candidates|
        invariant 0 <= i <= |candidates|
        invariant Sorted(distances)
        invariant Elems(distances) == Scores(cfg, nodes, query, ActiveOf(nodes, Elems(candidates[..i])))
      {
        var neighbor := candidates[i];
        assert neighbor in Elems(candidates);
        assert candidates[..i + 1] == candidates[..i] + [neighbor];
        assert Elems(candidates[..i + 1]) == Elems(candidates[..i]) + {neighbor};
        if nodes[neighbor].active {
          var p := Pair(cfg.dist(query, nodes[neighbor].vector), neighbor);
          assert p !in Elems(distances);
          distances := Push(distances, p);
        }
        i := i + 1;
      }
      assert candidates[..i] == candidates;
    }

    /** Cuts the neighbours of `n` down to those selected; those cut forget `n`. */
    method PruneNeighbors(n: Id, level: int)
      requires EdgesOk(nodes) && n in nodes
      modifies this`nodes
      ensures nodes == Prune(old(nodes), n, level, Kept(cfg, old(nodes), n, level))
    {
      var conn := Nbrs(nodes, n, level);
      assert forall a :: a in conn ==> EdgeOk(nodes, n, a, level);
      var candidates := ListOf(conn);
      var newConn := SelectNeighbors(nodes[n].vector, candidates, level);
      ForgetPruned(n, level, newConn);
      var kept := SetOf(newConn);
      ForgottenPrune(old(nodes), n, level, kept);
      nodes := SetNbrs(nodes, n, level, kept);
    }

    method ForgetPruned(n: Id, level: int, newConn: seq<Id>)
      requires EdgesOk(nodes) && n in nodes
      modifies this`nodes
      ensures nodes == Forgotten(old(nodes), n, level, Nbrs(old(nodes), n, level) - Elems(newConn))
    {
      ghost var g := nodes;
      var conn := Nbrs(nodes, n, level);
      var rest := conn;
      while rest != {}
        invariant rest <= conn
        invariant nodes == Forgotten(g, n, level, conn - rest - Elems(newConn))
      {
        var neighbor :| neighbor in rest;
        assert EdgeOk(g, n, neighbor, level);
        if neighbor !in newConn {
          assert Nbrs(nodes, neighbor, level) == Nbrs(g, neighbor, level);
          nodes := SetNbrs(nodes, neighbor, level, Nbrs(nodes, neighbor, level) - {n});
        }
        rest := rest - {neighbor};
      }
      assert conn - rest - Elems(newConn) == conn - Elems(newConn);
    }

    method ConnectNeighbors(id: Id, neighbors: seq<Id>, level: int)
      requires EdgesOk(nodes) && id in nodes && Elems(neighbors) <= nodes.Keys - {id}
      requires 0 <= level <= nodes[id].level && forall n :: n in Elems(neighbors) ==> level <= nodes[n].level
      modifies this`nodes
      ensures nodes == ConnectAll(cfg, old(nodes), id, neighbors, level)
    {
      ghost var g := nodes;
      var i := 0;
      assert neighbors[0..] == neighbors;
      while i < |neighbors|
        invariant 0 <= i <= |neighbors|
        invariant EdgesOk(nodes) && SameNodes(g, nodes)
        invariant Elems(neighbors[i..]) <= nodes.Keys
        invariant ConnectAll(cfg, nodes, id, neighbors[i..], level) == ConnectAll(cfg, g, id, neighbors, level)
      {
        var n := neighbors[i];
        assert n in Elems(neighbors);
        ConnectOneEdges(cfg, nodes, id, n, level);
        ConnectAllFrom(cfg, nodes, id, neighbors, i, level);
        ConnectNeighbor(id, n, level);
        i := i + 1;
      }
    }

    /** One round of the loop above. */
    method ConnectNeighbor(id: Id, n: Id, level: int)
      requires EdgesOk(nodes) && id in nodes && n in nodes && id != n
      requires 0 <= level <= nodes[id].level && level <= nodes[n].level
      modifies this`nodes
      ensures nodes == ConnectOne(cfg, old(nodes), id, n, level)
    {
      if !nodes[n].active {
        return;
      }
      AddEdgeOk(nodes, id, n, level);
      nodes := SetNbrs(nodes, id, level, Nbrs(nodes, id, level) + {n});
      nodes := SetNbrs(nodes, n, level, Nbrs(nodes, n, level) + {id});
      var maxNeighbors := if level == 0 then cfg.m0 else cfg.m;
      if |Nbrs(nodes, n, level)| > maxNeighbors {
        PruneNeighbors(n, level);
      }
    }

    // ----- insertion

    /** One level of the greedy descent of an insertion. */
    method DescendOne(vector: Vector, entry: Id, l: int, newLevel: int, ghost id: Id) returns (r: Id)
      requires EdgesOk(nodes) && entry in Above(nodes, l, {id}) && l > newLevel
      requires forall k :: Nbrs(nodes, id, k) == {}
      ensures r in Above(nodes, l - 1, {id})
      ensures Descend(cfg, nodes, vector, r, 1, l - 1, newLevel) == Descend(cfg, nodes, vector, entry, 1, l, newLevel)
    {
      ghost var next := DescendStep(cfg, nodes, vector, entry, 1, l, newLevel, {id});
      var nearest := SearchLevel(vector, Some(entry), 1, l);
      r := entry;
      if nearest != [] {
        r := nearest[0];
      }
    }

    method DescendTo(vector: Vector, entry: Id, newLevel: int, ghost id: Id) returns (r: Id)
      requires EdgesOk(nodes) && entry in Above(nodes, maxLevel, {id})
      requires forall k :: Nbrs(nodes, id, k) == {}
      ensures r == Descend(cfg, nodes, vector, entry, 1, maxLevel, newLevel)
    {
      ghost var target := Descend(cfg, nodes, vector, entry, 1, maxLevel, newLevel);
      r := entry;
      var l := maxLevel;
      while l > newLevel
        invariant r in Above(nodes, l, {id})
        invariant Descend(cfg, nodes, vector, r, 1, l, newLevel) == target
        decreases l - newLevel
      {
        var next := DescendOne(vector, r, l, newLevel, id);
        assert Descend(cfg, nodes, vector, next, 1, l - 1, newLevel) == target;
        r, l := next, l - 1;
      }
    }

    /** Connects the new node at one level. */
    method ConnectLevel(id: Id, vector: Vector, entry: Id, level: nat)
      requires Connecting(cfg, nodes, id, entry, level)
      modifies this`nodes
      ensures nodes == ConnectAt(cfg, old(nodes), id, vector, entry, level)
    {
      var nearest := SearchLevel(vector, Some(entry), cfg.efConstruction, level);
      NearestPresent(cfg, nodes, vector, entry, cfg.efConstruction, level);
      var neighbors := SelectNeighbors(vector, nearest, level);
      ChosenOk(cfg, nodes, id, vector, entry, level);
      ConnectNeighbors(id, neighbors, level);
    }

    method ConnectDown(id: Id, vector: Vector, entry: Id, level: int)
      requires Connecting(cfg, nodes, id, entry, level)
      modifies this`nodes
      ensures nodes == ConnectLevels(cfg, old(nodes), id, vector, entry, level)
    {
      ghost var g := nodes;
      var l := level;
      while l > -1
        invariant Connecting(cfg, nodes, id, entry, l)
        invariant ConnectLevels(cfg, nodes, id, vector, entry, l) == ConnectLevels(cfg, g, id, vector, entry, level)
        decreases l
      {
        ghost var h := ConnectAtOk(cfg, nodes, id, vector, entry, l);
        ConnectLevel(id, vector, entry, l);
        l := l - 1;
      }
    }

    /** Links a node that was just added to a nonempty index. */
    method ConnectNew(id: Id, vector: Vector, newLevel: nat, ghost s: State)
      requires StateOk(cfg, s) && |vector| == cfg.dim && id !in s.nodes && newLevel == cfg.levelOf(id)
      requires nodes == Fresh(cfg, s.nodes, id, vector) && maxLevel == s.maxLevel
      requires entryPoint == s.entry && s.entry.Some?
      modifies this`nodes
      ensures nodes == InsertResult(cfg, s, id, vector).nodes
    {
      ghost var e, low := InsertConnects(cfg, s, id, vector);
      FreshOk(cfg, s.nodes, id, vector);
      var entry := DescendTo(vector, entryPoint.value, newLevel, id);
      ConnectDown(id, vector, entry, if maxLevel < newLevel then maxLevel else newLevel);
    }

    /** `InsertNoLock`; `Insert` is the same under the lock. */
    method Insert(id: Id, vector: Vector)
      requires Valid()
      modifies this
      ensures Valid() && Abs() == InsertResult(cfg, old(Abs()), id, vector)
    {
      ghost var s := Abs();
      ghost var t := InsertResult(cfg, s, id, vector);
      InsertOk(cfg, s, id, vector);
      if |vector| != cfg.dim || id in nodes {
        return;
      }
      var newLevel := cfg.levelOf(id);
      nodes := nodes[id := Node(vector, newLevel, map[], true)];
      nodeLevels := Register(nodeLevels, newLevel, id);
      if entryPoint == None {
        entryPoint := Some(id);
        maxLevel := newLevel;
        assert Abs() == t;
        return;
      }
      ConnectNew(id, vector, newLevel, s);
      if newLevel > maxLevel {
        maxLevel := newLevel;
        entryPoint := Some(id);
      }
      assert Abs() == t;
    }

    // ----- removal

    method Remove(id: Id)
      requires Valid()
      modifies this
      ensures Valid() && RemoveStep(old(Abs()), id, Abs())
    {
      ghost var s := Abs();
      if entryPoint == None || id !in nodes || !nodes[id].active {
        RemoveOk(cfg, s, id, s);
        return;
      }
      nodes := nodes[id := nodes[id].(active := false)];
      var level := nodes[id].level;
      assert level in nodeLevels;
      nodeLevels := nodeLevels[level := nodeLevels[level] - {id}];
      if nodeLevels[level] == {} {
        nodeLevels := nodeLevels - {level};
      }
      assert nodeLevels == Unregister(s.levels, level, id);
      if id != entryPoint.value {
        RemoveOk(cfg, s, id, Abs());
        return;
      }
      entryPoint := None;
      var newHighest := maxLevel;
      while newHighest >= 0 && newHighest !in nodeLevels
        invariant Highest(nodeLevels, newHighest) == Highest(nodeLevels, maxLevel)
        decreases newHighest
      {
        newHighest := newHighest - 1;
      }
      if newHighest in nodeLevels {
        entryPoint := FirstActive(nodeLevels[newHighest]);
      }
      maxLevel := newHighest;
      RemoveOk(cfg, s, id, Abs());
    }

    method FirstActive(ids: set<Id>) returns (r: Option<Id>)
      ensures match r
        case None => forall a :: a in ids ==> !Active(nodes, a)
        case Some(a) => a in ids && Active(nodes, a)
    {
      var rest := ids;
      while rest != {}
        invariant rest <= ids && forall a :: a in ids - rest ==> !Active(nodes, a)
      {
        var candidate :| candidate in rest;
        if candidate in nodes && nodes[candidate].active {
          return Some(candidate);
        }
        rest := rest - {candidate};
      }
      r := None;
    }

    // ----- queries

    method Search(query: Vector, k: nat, ef: nat) returns (results: seq<Id>)
      requires Valid()
      ensures results == SearchResult(cfg, Abs(), query, k, ef)
    {
      if entryPoint == None {
        return [];
      }
      ghost var target := Descend(cfg, nodes, query, entryPoint.value, ef, maxLevel, 0);
      var entry := entryPoint.value;
      var l := maxLevel;
      while l > 0
        invariant entry in Above(nodes, l, {}) && l >= 0
        invariant ef == 0 ==> entry == entryPoint.value && l == maxLevel
        invariant Descend(cfg, nodes, query, entry, ef, l, 0) == target
      {
        var nearest := SearchLevel(query, Some(entry), ef, l);
        if nearest == [] {
          if ef > 0 {
            ghost var next := DescendStep(cfg, nodes, query, entry, ef, l, 0, {});
          }
          return [];
        }
        ghost var next := DescendStep(cfg, nodes, query, entry, ef, l, 0, {});
        entry := nearest[0];
        l := l - 1;
      }
      results := SearchLevel(query, Some(entry), ef, 0);
      if |results| > k {
        results := results[..k];
      }
    }

    // ----- cleanup and rebuild

    /** Drops the neighbours of one node that are gone or soft-removed. */
    method CleanNeighbors(neighbors: map<int, set<Id>>) returns (r: map<int, set<Id>>)
      ensures r == map l | l in neighbors :: ActiveOf(nodes, neighbors[l])
    {
      r := neighbors;
      var levels := neighbors.Keys;
      while levels != {}
        invariant levels <= neighbors.Keys
        invariant r == map l | l in neighbors :: if l in levels then neighbors[l] else ActiveOf(nodes, neighbors[l])
      {
        SomeLevel(levels);
        var level :| level in levels;
        var kept := CleanSet(neighbors[level]);
        r := r[level := kept];
        levels := levels - {level};
      }
    }

    method CleanSet(ids: set<Id>) returns (kept: set<Id>)
      ensures kept == ActiveOf(nodes, ids)
    {
      kept := ids;
      var rest := ids;
      while rest != {}
        invariant rest <= ids
        invariant kept == rest + ActiveOf(nodes, ids - rest)
      {
        var neighbor :| neighbor in rest;
        if neighbor !in nodes || !nodes[neighbor].active {
          kept := kept - {neighbor};
        }
        rest := rest - {neighbor};
      }
      assert ids - rest == ids;
    }

    method Cleanup()
      requires Valid()
      modifies this`nodes
      ensures Valid() && Abs() == CleanupResult(old(Abs()))
    {
      ghost var g := nodes;
      CleanupOk(cfg, Abs());
      var rest := nodes.Keys;
      while rest != {}
        invariant rest <= g.Keys
        invariant nodes == PartlyClean(g, rest)
      {
        var id :| id in rest;
        PartlyCleanStep(g, rest, id);
        if !nodes[id].active {
          nodes := nodes - {id};
        } else {
          var neighbors := CleanNeighbors(nodes[id].neighbors);
          CleanedSame(g, nodes, g[id], neighbors);
          nodes := nodes[id := nodes[id].(neighbors := neighbors)];
        }
        rest := rest - {id};
      }
      WhollyClean(g);
    }

    method Reindex()
      requires Valid()
      modifies this
      ensures Valid() && ReindexStep(cfg, old(Abs()), Abs())
    {
      ghost var s := Abs();
      var items := ListNodes();
      nodes := map[];
      nodeLevels := map[];
      entryPoint := None;
      maxLevel := -1;
      EmptyOk(cfg);
      var i := 0;
      while i < |items|
        invariant 0 <= i <= |items|
        invariant Valid()
        invariant InsertAll(cfg, Abs(), items[i..]) == InsertAll(cfg, EMPTY, items)
      {
        assert items[i..][0] == items[i] && items[i..][1..] == items[i + 1..];
        Insert(items[i].0, items[i].1);
        i := i + 1;
      }
      assert Abs() == InsertAll(cfg, EMPTY, items);
    }

    method ListNodes() returns (items: seq<(Id, Vector)>)
      ensures Lists(items, Vectors(nodes))
    {
      var g := nodes;
      var ids := ListOf(g.Keys);
      assert forall i :: 0 <= i < |ids| ==> ids[i] in Elems(ids);
      items := seq(|ids|, i requires 0 <= i < |ids| => (ids[i], g[ids[i]].vector));
      forall a | a in nodes
        ensures (a, nodes[a].vector) in items
      {
        assert a in Elems(ids);
        var i :| 0 <= i < |ids| && ids[i] == a;
        assert items[i] == (a, nodes[a].vector);
      }
    }
  }

  ghost function PartlyClean(g: Graph, rest: set<Id>): Graph {
    map a | a in g && (a in rest || g[a].active) :: if a in rest then g[a] else CleanNode(g, g[a])
  }

  lemma SomeLevel(levels: set<int>)
    requires levels != {}
    ensures exists l :: l in levels
  {
    assert (forall l :: l !in levels) ==> levels <= {};
  }

  lemma WhollyClean(g: Graph)
    ensures PartlyClean(g, {}) == CleanGraph(g)
  {}

  lemma PartlyCleanStep(g: Graph, rest: set<Id>, id: Id)
    requires rest <= g.Keys && id in rest
    ensures var h := PartlyClean(g, rest);
      && id in h && h[id] == g[id] && (forall a :: Active(h, a) <==> Active(g, a))
      && PartlyClean(g, rest - {id}) == if g[id].active then h[id := CleanNode(g, g[id])] else h - {id}
  {}

  lemma CleanedSame(g: Graph, h: Graph, n: Node, neighbors: map<int, set<Id>>)
    requires forall a :: Active(h, a) <==> Active(g, a)
    requires neighbors == map l | l in n.neighbors :: ActiveOf(h, n.neighbors[l])
    ensures n.(neighbors := neighbors) == CleanNode(g, n)
  {
    assert forall l :: l in n.neighbors ==> ActiveOf(h, n.neighbors[l]) == ActiveOf(g, n.neighbors[l]);
  }

  lemma NearestPresent(cfg: Config, g: Graph, query: Vector, entry: Id, ef: nat, level: int)
    requires Active(g, entry)
    ensures var r := Beams.SearchLevel(cfg, g, query, entry, ef, level);
      Elems(r) <= g.Keys && forall i, j :: 0 <= i < j < |r| ==> r[i] != r[j]
  {
    if ef > 0 {
      Beams.SearchLevelMeaning(cfg, g, query, entry, ef, level);
    }
  }

  /** A set in the order of its iteration. */
  method ListOf(s: set<Id>) returns (list: seq<Id>)
    ensures Elems(list) == s
    ensures forall i, j :: 0 <= i < j < |list| ==> list[i] != list[j]
  {
    list := [];
    var rest := s;
    while rest != {}
      invariant Elems(list) == s - rest && rest <= s
      invariant forall i, j :: 0 <= i < j < |list| ==> list[i] != list[j]
    {
      var a :| a in rest;
      assert a !in Elems(list) && Elems(list + [a]) == Elems(list) + {a};
      list := list + [a];
      rest := rest - {a};
    }
  }

  method SetOf(list: seq<Id>) returns (s: set<Id>)
    ensures s == Elems(list)
  {
    s := {};
    var i := 0;
    while i < |list|
      invariant 0 <= i <= |list|
      invariant s == Elems(list[..i])
    {
      s := s + {list[i]};
      assert list[..i + 1] == list[..i] + [list[i]];
      i := i + 1;
    }
    assert list[..i] == list;
  }

  lemma ConnectAllFrom(cfg: Config, g: Graph, id: Id, ns: seq<Id>, i: nat, level: int)
    requires i < |ns| && id in g && Elems(ns[i..]) <= g.Keys
    ensures ns[i] in g && Elems(ns[i + 1..]) <= g.Keys
    ensures ConnectAll(cfg, g, id, ns[i..], level) ==
      ConnectAll(cfg, ConnectOne(cfg, g, id, ns[i], level), id, ns[i + 1..], level)
  {
    assert ns[i..][0] == ns[i] && ns[i..][1..] == ns[i + 1..];
    assert ns[i] in Elems(ns[i..]);
    assert Elems(ns[i + 1..]) <= Elems(ns[i..]);
  }

  lemma ForgottenPrune(g: Graph, n: Id, level: int, keep: set<Id>)
    requires EdgesOk(g) && n in g
    ensures n in Forgotten(g, n, level, Nbrs(g, n, level) - keep)
    ensures SetNbrs(Forgotten(g, n, level, Nbrs(g, n, level) - keep), n, level, keep) == Prune(g, n, level, keep)
  {
    assert n in Nbrs(g, n, level) ==> EdgeOk(g, n, n, level);
  }

  /** `g` after the nodes of `dropped` have forgotten their neighbour `n`. */
  ghost function Forgotten(g: Graph, n: Id, level: int, dropped: set<Id>): Graph {
    map a | a in g :: if a in dropped then With(g[a], level, Nbrs(g, a, level) - {n}) else g[a]
  }

  lemma StartOk(cfg: Config, g: Graph, query: Vector, entry: Id, ef: nat, level: int) returns (b: Beams.Beam)
    requires Active(g, entry) && ef > 0
    ensures b == Beams.Beam(Elems([Pair(cfg.dist(query, g[entry].vector), entry)]), Elems([]), {entry})
    ensures Beams.BeamOk(cfg, g, query, ef, level, b)
    ensures Beams.Explore(cfg, g, query, ef, level, b) == Beams.Final(cfg, g, query, entry, ef, level)
  {
    b := Beams.Start(cfg, g, query, entry);
    assert Elems([Pair(cfg.dist(query, g[entry].vector), entry)]) == b.candidates;
  }

  lemma NextRound(cfg: Config, g: Graph, query: Vector, ef: nat, level: int, b: Beams.Beam) returns (r: Beams.Beam)
    requires Beams.BeamOk(cfg, g, query, ef, level, b) && !Beams.Stops(ef, b) && ef > 0
    ensures r == Beams.Round(cfg, g, query, ef, level, b)
    ensures Beams.BeamOk(cfg, g, query, ef, level, r)
    ensures Beams.Explore(cfg, g, query, ef, level, r) == Beams.Explore(cfg, g, query, ef, level, b)
    ensures |g.Keys - r.visited| <= |g.Keys - b.visited|
    ensures |g.Keys - r.visited| == |g.Keys - b.visited| ==> |r.candidates| < |b.candidates|
  {
    r := Beams.Round(cfg, g, query, ef, level, b);
    Beams.RoundShrinks(cfg, g, query, ef, level, b);
    Beams.RoundOk(cfg, g, query, ef, level, b);
  }

  /** The sorted lists top and pop as the sets of the specification do. */
  lemma HeapsOk(candidates: seq<Pair>, top: seq<Pair>, ef: nat, visited: set<Id>)
    requires Sorted(candidates) && Sorted(top) && candidates != [] && ef > 0
    ensures var b := Beams.Beam(Elems(candidates), Elems(top), visited);
      && b.candidates != {} && First(b.candidates) == candidates[0]
      && Sorted(candidates[1..]) && Elems(candidates[1..]) == b.candidates - {candidates[0]}
      && |b.candidates| == |candidates|
      && (Beams.Full(b.top, ef) <==> |top| == ef)
      && (|top| == ef ==> b.top != {} && Last(b.top) == top[|top| - 1])
      && (|top| == ef ==> Sorted(top[..|top| - 1]) && Elems(top[..|top| - 1]) == b.top - {top[|top| - 1]})
  {
    HeadIn(candidates);
    SortedTail(candidates);
    SortedSize(candidates);
    SortedSize(top);
    assert IsFirst(candidates[0], Elems(candidates));
    if |top| == ef {
      LastIn(top);
    }
  }

  lemma LastIn(s: seq<Pair>)
    requires Sorted(s) && s != []
    ensures s[|s| - 1] in Elems(s) && Last(Elems(s)) == s[|s| - 1]
    ensures Sorted(s[..|s| - 1]) && Elems(s[..|s| - 1]) == Elems(s) - {s[|s| - 1]}
  {
    assert s == s[..|s| - 1] + [s[|s| - 1]];
    assert IsLast(s[|s| - 1], Elems(s));
  }
}
