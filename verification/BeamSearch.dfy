/** `SearchLevel` of engine/src/index/hnsw_index.cc as a function of the graph: best-first exploration of
    one level with a min-heap of candidates and a max-heap of the `ef` best nodes found. The order in
    which a neighbour set is iterated does not matter, because the heaps order their pairs. */
module BeamSearch {
  import opened Ranking
  import opened HnswGraph

  /** The two heaps, as the sets of pairs they hold, and the ids met so far. */
  datatype Beam = Beam(candidates: set<Pair>, top: set<Pair>, visited: set<Id>)

  ghost function ActiveNbrs(g: Graph, a: Id, level: int): set<Id> {
    ActiveOf(g, Nbrs(g, a, level))
  }

  ghost predicate Full(top: set<Pair>, ef: nat) {
    |top| == ef && top != {}
  }

  /** The loop ends when the candidates run out, or when the best ones are complete and the nearest
      candidate is strictly farther than all of them. */
  ghost predicate Stops(ef: nat, b: Beam) {
    b.candidates == {} || (Full(b.top, ef) && First(b.candidates).dist > Last(b.top).dist)
  }

  /** The best ones after `p` is popped from the candidates: a full heap gives up its top for it. */
  ghost function Admit(top: set<Pair>, p: Pair, ef: nat): set<Pair> {
    (if Full(top, ef) then top - {Last(top)} else top) + {p}
  }

  ghost function Unvisited(g: Graph, level: int, b: Beam): set<Id>
    requires b.candidates != {}
  {
    ActiveNbrs(g, First(b.candidates).id, level) - b.visited
  }

  /** One iteration of the loop. */
  ghost function Round(cfg: Config, g: Graph, query: Vector, ef: nat, level: int, b: Beam): Beam
    requires b.candidates != {}
  {
    var p := First(b.candidates);
    var more := Unvisited(g, level, b);
    Beam(b.candidates - {p} + Scores(cfg, g, query, more), Admit(b.top, p, ef), b.visited + more)
  }

  lemma RoundShrinks(cfg: Config, g: Graph, query: Vector, ef: nat, level: int, b: Beam)
    requires b.candidates != {}
    ensures var r := Round(cfg, g, query, ef, level, b);
      && |g.Keys - r.visited| <= |g.Keys - b.visited|
      && (|g.Keys - r.visited| == |g.Keys - b.visited| ==> |r.candidates| < |b.candidates|)
  {
    VisitShrinks(g.Keys, b.visited, Unvisited(g, level, b));
    if Unvisited(g, level, b) == {} {
      SetShrinks(b.candidates, Round(cfg, g, query, ef, level, b).candidates, First(b.candidates));
    }
  }

  lemma VisitShrinks(keys: set<Id>, visited: set<Id>, more: set<Id>)
    requires more <= keys - visited
    ensures |keys - (visited + more)| <= |keys - visited|
    ensures more != {} ==> |keys - (visited + more)| < |keys - visited|
  {
    assert keys - visited == (keys - (visited + more)) + more;
  }

  lemma SetShrinks<T>(s: set<T>, t: set<T>, x: T)
    requires t <= s && x in s - t
    ensures |t| < |s|
  {
    SubsetSize(t, s);
  }

  ghost function Explore(cfg: Config, g: Graph, query: Vector, ef: nat, level: int, b: Beam): Beam
    decreases |g.Keys - b.visited|, |b.candidates|
  {
    if Stops(ef, b) then b
    else
      RoundShrinks(cfg, g, query, ef, level, b);
      Explore(cfg, g, query, ef, level, Round(cfg, g, query, ef, level, b))
  }

  ghost function Start(cfg: Config, g: Graph, query: Vector, entry: Id): Beam {
    Beam({Score(cfg, g, query, entry)}, {}, {entry})
  }

  ghost function Final(cfg: Config, g: Graph, query: Vector, entry: Id, ef: nat, level: int): Beam {
    Explore(cfg, g, query, ef, level, Start(cfg, g, query, entry))
  }

  ghost function SearchLevel(cfg: Config, g: Graph, query: Vector, entry: Id, ef: nat, level: int): seq<Id> {
    if ef == 0 then [] else Ids(Rank(Final(cfg, g, query, entry, ef, level).top))
  }

  // ----- what the loop keeps

  ghost predicate Expanded(g: Graph, level: int, a: Id, visited: set<Id>) {
    ActiveNbrs(g, a, level) <= visited
  }

  ghost predicate NoCloserThan(top: set<Pair>, p: Pair) {
    forall t :: t in top ==> t.dist <= p.dist
  }

  /** A visited node is still a candidate, or its neighbours were visited and it is among the best ones,
      or it was pushed out by a full heap of nodes no farther than it. */
  ghost predicate VisitedOk(cfg: Config, g: Graph, query: Vector, ef: nat, level: int, b: Beam, v: Id) {
    var score := Score(cfg, g, query, v);
    score in b.candidates ||
    (Expanded(g, level, v, b.visited) &&
     (score in b.top || (Full(b.top, ef) && NoCloserThan(b.top, score))))
  }

  ghost predicate BeamOk(cfg: Config, g: Graph, query: Vector, ef: nat, level: int, b: Beam) {
    && |b.top| <= ef
    && b.visited <= ActiveIds(g)
    && (forall p :: p in b.candidates ==> p !in b.top && p.id in b.visited && p == Score(cfg, g, query, p.id))
    && (forall p :: p in b.top ==> p.id in b.visited && p == Score(cfg, g, query, p.id))
    && (forall v :: v in b.visited ==> VisitedOk(cfg, g, query, ef, level, b, v))
  }

  lemma AdmitOk(top: set<Pair>, p: Pair, ef: nat)
    requires |top| <= ef && ef > 0 && p !in top
    requires Full(top, ef) ==> p.dist <= Last(top).dist
    ensures var r := Admit(top, p, ef);
      && |r| <= ef
      && p in r && r <= top + {p}
      && (forall x :: x in top - r ==> Full(r, ef) && NoCloserThan(r, x))
      && (forall x :: Full(top, ef) && NoCloserThan(top, x) ==> Full(r, ef) && NoCloserThan(r, x))
  {}

  lemma RoundHeaps(cfg: Config, g: Graph, query: Vector, ef: nat, level: int, b: Beam)
    requires BeamOk(cfg, g, query, ef, level, b) && !Stops(ef, b) && ef > 0
    ensures var r := Round(cfg, g, query, ef, level, b);
      && |r.top| <= ef && r.visited <= ActiveIds(g)
      && (forall p :: p in r.candidates ==> p !in r.top && p.id in r.visited && p == Score(cfg, g, query, p.id))
      && (forall p :: p in r.top ==> p.id in r.visited && p == Score(cfg, g, query, p.id))
  {
    AdmitOk(b.top, First(b.candidates), ef);
  }

  lemma RoundVisited(cfg: Config, g: Graph, query: Vector, ef: nat, level: int, b: Beam, v: Id)
    requires BeamOk(cfg, g, query, ef, level, b) && !Stops(ef, b) && ef > 0
    requires v in Round(cfg, g, query, ef, level, b).visited
    ensures VisitedOk(cfg, g, query, ef, level, Round(cfg, g, query, ef, level, b), v)
  {
    if v in b.visited {
      assert VisitedOk(cfg, g, query, ef, level, b, v);
      AdmitOk(b.top, First(b.candidates), ef);
    } else {
      assert Score(cfg, g, query, v) in Scores(cfg, g, query, Unvisited(g, level, b));
    }
  }

  lemma RoundOk(cfg: Config, g: Graph, query: Vector, ef: nat, level: int, b: Beam)
    requires BeamOk(cfg, g, query, ef, level, b) && !Stops(ef, b) && ef > 0
    ensures BeamOk(cfg, g, query, ef, level, Round(cfg, g, query, ef, level, b))
  {
    var r := Round(cfg, g, query, ef, level, b);
    RoundHeaps(cfg, g, query, ef, level, b);
    forall v | v in r.visited
      ensures VisitedOk(cfg, g, query, ef, level, r, v)
    {
      RoundVisited(cfg, g, query, ef, level, b, v);
    }
  }

  lemma {:induction false} ExploreOk(cfg: Config, g: Graph, query: Vector, ef: nat, level: int, b: Beam)
    requires BeamOk(cfg, g, query, ef, level, b) && ef > 0
    ensures var r := Explore(cfg, g, query, ef, level, b);
      BeamOk(cfg, g, query, ef, level, r) && Stops(ef, r) && b.visited <= r.visited
    decreases |g.Keys - b.visited|, |b.candidates|
  {
    if Stops(ef, b) {
    } else {
      RoundShrinks(cfg, g, query, ef, level, b);
      RoundOk(cfg, g, query, ef, level, b);
      ExploreOk(cfg, g, query, ef, level, Round(cfg, g, query, ef, level, b));
    }
  }

  /** What the search ends with: the `min(ef, |visited|)` best of the nodes visited, none of the others
      strictly closer, and all active neighbours visited but those of nodes strictly farther than every best one. */
  ghost predicate Found(cfg: Config, g: Graph, query: Vector, ef: nat, level: int, top: set<Pair>, visited: set<Id>) {
    && visited <= ActiveIds(g)
    && top <= Scores(cfg, g, query, visited)
    && |top| == Min(ef, |visited|)
    && (forall v :: v in visited && Score(cfg, g, query, v) !in top ==> NoCloserThan(top, Score(cfg, g, query, v)))
    && (forall v :: v in visited ==> Expanded(g, level, v, visited) || FartherThan(top, Score(cfg, g, query, v)))
  }

  ghost predicate FartherThan(top: set<Pair>, p: Pair) {
    forall t :: t in top ==> t.dist < p.dist
  }

  lemma StopFound(cfg: Config, g: Graph, query: Vector, ef: nat, level: int, b: Beam)
    requires BeamOk(cfg, g, query, ef, level, b) && Stops(ef, b) && ef > 0
    ensures Found(cfg, g, query, ef, level, b.top, b.visited)
  {
    ScoresSize(cfg, g, query, b.visited);
    SubsetSize(b.top, Scores(cfg, g, query, b.visited));
    assert forall v :: v in b.visited ==> VisitedOk(cfg, g, query, ef, level, b, v);
    if |b.top| < ef {
      assert b.top == Scores(cfg, g, query, b.visited);
    }
  }

  lemma FinalFound(cfg: Config, g: Graph, query: Vector, entry: Id, ef: nat, level: int)
    requires Active(g, entry) && ef > 0
    ensures var f := Final(cfg, g, query, entry, ef, level);
      Found(cfg, g, query, ef, level, f.top, f.visited) && entry in f.visited
  {
    ExploreOk(cfg, g, query, ef, level, Start(cfg, g, query, entry));
    StopFound(cfg, g, query, ef, level, Final(cfg, g, query, entry, ef, level));
  }

  // ----- what the caller gets

  /** A set of nodes that the active edges of a level do not leave. */
  ghost predicate Closed(g: Graph, level: int, C: set<Id>) {
    forall a :: a in C ==> ActiveNbrs(g, a, level) <= C
  }

  lemma {:induction false} ExploreWithin(cfg: Config, g: Graph, query: Vector, ef: nat, level: int, b: Beam, C: set<Id>)
    requires BeamOk(cfg, g, query, ef, level, b) && ef > 0
    requires Closed(g, level, C) && b.visited <= C
    ensures Explore(cfg, g, query, ef, level, b).visited <= C
    decreases |g.Keys - b.visited|, |b.candidates|
  {
    if Stops(ef, b) {
    } else {
      RoundShrinks(cfg, g, query, ef, level, b);
      RoundOk(cfg, g, query, ef, level, b);
      ExploreWithin(cfg, g, query, ef, level, Round(cfg, g, query, ef, level, b), C);
    }
  }

  ghost function Visited(cfg: Config, g: Graph, query: Vector, entry: Id, ef: nat, level: int): set<Id> {
    Final(cfg, g, query, entry, ef, level).visited
  }

  /** Everything visited is reached from the entry over active edges: it lies in every closed set
      around the entry. */
  lemma VisitedReachable(cfg: Config, g: Graph, query: Vector, entry: Id, ef: nat, level: int, C: set<Id>)
    requires Active(g, entry) && ef > 0 && Closed(g, level, C) && entry in C
    ensures Visited(cfg, g, query, entry, ef, level) <= C
  {
    ExploreWithin(cfg, g, query, ef, level, Start(cfg, g, query, entry), C);
  }

  /** The result of one search: `min(ef, visited)` distinct active ids in ascending order; no visited id
      left out is strictly closer than any of them; and all active neighbours of every visited node that is no farther
      than some result were visited, at equal distances too. */
  lemma SearchLevelMeaning(cfg: Config, g: Graph, query: Vector, entry: Id, ef: nat, level: int)
    requires Active(g, entry) && ef > 0
    ensures var r := SearchLevel(cfg, g, query, entry, ef, level);
      var visited := Visited(cfg, g, query, entry, ef, level);
      && entry in visited && visited <= ActiveIds(g)
      && 0 < |r| == |Elems(r)| == Min(ef, |visited|)
      && Elems(r) <= visited
      && (forall i, j :: 0 <= i < j < |r| ==> Less(Score(cfg, g, query, r[i]), Score(cfg, g, query, r[j])))
      && (forall a, v :: a in r && v in visited - Elems(r) ==>
            Score(cfg, g, query, a).dist <= Score(cfg, g, query, v).dist)
      && (forall a, v :: a in r && v in visited && Score(cfg, g, query, v).dist <= Score(cfg, g, query, a).dist ==>
            ActiveNbrs(g, v, level) <= visited)
      && (forall a :: a in r ==> ActiveNbrs(g, a, level) <= visited)
  {
    FinalFound(cfg, g, query, entry, ef, level);
    var f := Final(cfg, g, query, entry, ef, level);
    IdsOfScores(cfg, g, query, f.visited, Rank(f.top));
    var r := Ids(Rank(f.top));
    SubsetSize({entry}, f.visited);
    forall a, v | a in r && v in f.visited - Elems(r)
      ensures Score(cfg, g, query, a).dist <= Score(cfg, g, query, v).dist
    {
      assert NoCloserThan(f.top, Score(cfg, g, query, v));
    }
    forall a, v | a in r && v in f.visited && Score(cfg, g, query, v).dist <= Score(cfg, g, query, a).dist
      ensures ActiveNbrs(g, v, level) <= f.visited
    {
      assert Score(cfg, g, query, a) in f.top;
      assert Expanded(g, level, v, f.visited) || FartherThan(f.top, Score(cfg, g, query, v));
    }
  }

  /** The best hit is no farther than where the search started, and for `ef == 1` it is a local minimum. */
  lemma BestHit(cfg: Config, g: Graph, query: Vector, entry: Id, ef: nat, level: int)
    requires Active(g, entry) && ef > 0
    ensures var r := SearchLevel(cfg, g, query, entry, ef, level);
      && r != []
      && Score(cfg, g, query, r[0]).dist <= Score(cfg, g, query, entry).dist
      && (forall n :: n in ActiveNbrs(g, r[0], level) ==>
            Score(cfg, g, query, r[0]).dist <= Score(cfg, g, query, n).dist)
  {
    SearchLevelMeaning(cfg, g, query, entry, ef, level);
    var r := SearchLevel(cfg, g, query, entry, ef, level);
    var visited := Visited(cfg, g, query, entry, ef, level);
    forall v | v in visited
      ensures Score(cfg, g, query, r[0]).dist <= Score(cfg, g, query, v).dist
    {
      if v in Elems(r) {
        var i :| 0 <= i < |r| && r[i] == v;
      } else {
        assert r[0] in r;
      }
    }
    assert r[0] in r;
  }

  /** A search that has room for everything it visits returns all of it, and that is a closed set. */
  lemma RoomForAll(cfg: Config, g: Graph, query: Vector, entry: Id, ef: nat, level: int)
    requires Active(g, entry) && 0 < ef && |Visited(cfg, g, query, entry, ef, level)| <= ef
    ensures var r := SearchLevel(cfg, g, query, entry, ef, level);
      && entry in r && Closed(g, level, Elems(r))
      && Elems(r) == Visited(cfg, g, query, entry, ef, level)
  {
    SearchLevelMeaning(cfg, g, query, entry, ef, level);
    var r := SearchLevel(cfg, g, query, entry, ef, level);
    SubsetSize(Elems(r), Visited(cfg, g, query, entry, ef, level));
    assert entry in Elems(r);
  }

  lemma ExploreStep(cfg: Config, g: Graph, query: Vector, ef: nat, level: int, b: Beam)
    requires !Stops(ef, b)
    ensures Explore(cfg, g, query, ef, level, b) == Explore(cfg, g, query, ef, level, Round(cfg, g, query, ef, level, b))
  {}

  lemma StartOk(cfg: Config, g: Graph, query: Vector, entry: Id, ef: nat, level: int)
    requires Active(g, entry) && ef > 0
    ensures var b := Start(cfg, g, query, entry);
      && BeamOk(cfg, g, query, ef, level, b) && !Stops(ef, b) && First(b.candidates) == Score(cfg, g, query, entry)
  {}

  /** The first thing a search does is to look at the neighbours of where it starts. */
  lemma EntryExpanded(cfg: Config, g: Graph, query: Vector, entry: Id, ef: nat, level: int)
    requires Active(g, entry) && ef > 0
    ensures ActiveNbrs(g, entry, level) <= Visited(cfg, g, query, entry, ef, level)
  {
    var b := Start(cfg, g, query, entry);
    StartOk(cfg, g, query, entry, ef, level);
    var r := Round(cfg, g, query, ef, level, b);
    assert ActiveNbrs(g, entry, level) <= r.visited;
    RoundOk(cfg, g, query, ef, level, b);
    ExploreStep(cfg, g, query, ef, level, b);
    ExploreOk(cfg, g, query, ef, level, r);
  }

  /** The first hit is no farther than anything visited. */
  lemma VisitedBest(cfg: Config, g: Graph, query: Vector, entry: Id, ef: nat, level: int, v: Id)
    requires Active(g, entry) && ef > 0 && v in Visited(cfg, g, query, entry, ef, level)
    ensures var r := SearchLevel(cfg, g, query, entry, ef, level);
      r != [] && Score(cfg, g, query, r[0]).dist <= Score(cfg, g, query, v).dist
  {
    SearchLevelMeaning(cfg, g, query, entry, ef, level);
    var r := SearchLevel(cfg, g, query, entry, ef, level);
    if v in Elems(r) {
      var i :| 0 <= i < |r| && r[i] == v;
    } else {
      assert r[0] in r;
    }
  }

  // ----- a search for one node

  /** A walk over active edges that never gets farther from the query. */
  ghost predicate Downhill(cfg: Config, g: Graph, query: Vector, level: int, p: seq<Id>) {
    p != [] && forall i :: 0 <= i < |p| - 1 ==>
      p[i + 1] in ActiveNbrs(g, p[i], level) && Score(cfg, g, query, p[i + 1]).dist <= Score(cfg, g, query, p[i]).dist
  }

  ghost predicate DownTo(cfg: Config, g: Graph, query: Vector, level: int, a: Id, b: Id) {
    exists p :: Downhill(cfg, g, query, level, p) && p[0] == a && p[|p| - 1] == b
  }

  lemma DownStep(cfg: Config, g: Graph, query: Vector, level: int, a: Id, b: Id, c: Id)
    requires DownTo(cfg, g, query, level, a, b) && c in ActiveNbrs(g, b, level)
    requires Score(cfg, g, query, c).dist <= Score(cfg, g, query, b).dist
    ensures DownTo(cfg, g, query, level, a, c)
  {
    var p :| Downhill(cfg, g, query, level, p) && p[0] == a && p[|p| - 1] == b;
    assert Downhill(cfg, g, query, level, p + [c]);
  }

  /** A candidate comes from a node that was once the best one, and the best one is no farther than that now. */
  ghost predicate Descended(cfg: Config, g: Graph, query: Vector, level: int, entry: Id, top: set<Pair>, c: Pair) {
    exists t :: DownTo(cfg, g, query, level, entry, t) && c.id in ActiveNbrs(g, t, level) &&
      forall u :: u in top ==> u.dist <= Score(cfg, g, query, t).dist
  }

  ghost predicate GreedyOk(cfg: Config, g: Graph, query: Vector, level: int, entry: Id, b: Beam) {
    && (b.top == {} ==> b.candidates == {Score(cfg, g, query, entry)})
    && (forall t :: t in b.top ==> DownTo(cfg, g, query, level, entry, t.id))
    && (b.top != {} ==> forall c :: c in b.candidates ==> Descended(cfg, g, query, level, entry, b.top, c))
  }

  lemma GreedyTop(cfg: Config, g: Graph, query: Vector, level: int, entry: Id, b: Beam)
    requires BeamOk(cfg, g, query, 1, level, b) && GreedyOk(cfg, g, query, level, entry, b) && !Stops(1, b)
    ensures var p := First(b.candidates);
      && DownTo(cfg, g, query, level, entry, p.id) && Admit(b.top, p, 1) == {p}
      && forall u :: u in b.top ==> p.dist <= u.dist
  {
    var p := First(b.candidates);
    if b.top == {} {
      assert Downhill(cfg, g, query, level, [entry]);
    } else {
      var u := Last(b.top);
      SubsetSize({u}, b.top);
      assert b.top == {u};
      assert Descended(cfg, g, query, level, entry, b.top, p);
      var t :| DownTo(cfg, g, query, level, entry, t) && p.id in ActiveNbrs(g, t, level) &&
        forall u :: u in b.top ==> u.dist <= Score(cfg, g, query, t).dist;
      DownStep(cfg, g, query, level, entry, t, p.id);
    }
  }

  lemma GreedyRound(cfg: Config, g: Graph, query: Vector, level: int, entry: Id, b: Beam)
    requires BeamOk(cfg, g, query, 1, level, b) && GreedyOk(cfg, g, query, level, entry, b) && !Stops(1, b)
    ensures GreedyOk(cfg, g, query, level, entry, Round(cfg, g, query, 1, level, b))
  {
    var p := First(b.candidates);
    var r := Round(cfg, g, query, 1, level, b);
    GreedyTop(cfg, g, query, level, entry, b);
    forall c | c in r.candidates
      ensures Descended(cfg, g, query, level, entry, {p}, c)
    {
      if c in b.candidates && b.top != {} {
        StillDescended(cfg, g, query, level, entry, b.top, p, c);
      } else {
        assert c in Scores(cfg, g, query, Unvisited(g, level, b)) && p == Score(cfg, g, query, p.id);
      }
    }
  }

  lemma StillDescended(cfg: Config, g: Graph, query: Vector, level: int, entry: Id, top: set<Pair>, p: Pair, c: Pair)
    requires Descended(cfg, g, query, level, entry, top, c) && top != {} && forall u :: u in top ==> p.dist <= u.dist
    ensures Descended(cfg, g, query, level, entry, {p}, c)
  {
    var t :| DownTo(cfg, g, query, level, entry, t) && c.id in ActiveNbrs(g, t, level) &&
      forall u :: u in top ==> u.dist <= Score(cfg, g, query, t).dist;
    var u :| u in top;
  }

  lemma {:induction false} GreedyExplore(cfg: Config, g: Graph, query: Vector, level: int, entry: Id, b: Beam)
    requires BeamOk(cfg, g, query, 1, level, b) && GreedyOk(cfg, g, query, level, entry, b)
    ensures GreedyOk(cfg, g, query, level, entry, Explore(cfg, g, query, 1, level, b))
    decreases |g.Keys - b.visited|, |b.candidates|
  {
    if Stops(1, b) {
    } else {
      RoundShrinks(cfg, g, query, 1, level, b);
      RoundOk(cfg, g, query, 1, level, b);
      GreedyRound(cfg, g, query, level, entry, b);
      GreedyExplore(cfg, g, query, level, entry, Round(cfg, g, query, 1, level, b));
    }
  }

  /** A search for one node walks downhill: from the entry to the hit, over active edges, and never away from the
      query. */
  lemma GreedyDownhill(cfg: Config, g: Graph, query: Vector, entry: Id, level: int)
    requires Active(g, entry)
    ensures var r := SearchLevel(cfg, g, query, entry, 1, level);
      |r| == 1 && DownTo(cfg, g, query, level, entry, r[0])
  {
    SearchLevelMeaning(cfg, g, query, entry, 1, level);
    GreedyExplore(cfg, g, query, level, entry, Start(cfg, g, query, entry));
    var top := Final(cfg, g, query, entry, 1, level).top;
    HeadIn(Rank(top));
  }

  /** At equal distances the search moves on: of two nodes with an edge and equally far from the query, a search for
      one node finds the one that it did not start from. */
  lemma EqualMovesOn(cfg: Config, g: Graph, query: Vector, a: Id, b: Id, level: int)
    requires Active(g, a) && Active(g, b) && a != b && Nbrs(g, a, level) == {b} && Nbrs(g, b, level) == {a}
    requires cfg.dist(query, g[a].vector) == cfg.dist(query, g[b].vector)
    ensures SearchLevel(cfg, g, query, a, 1, level) == [b]
  {
    var sa, sb := Score(cfg, g, query, a), Score(cfg, g, query, b);
    var b0, b1 := Start(cfg, g, query, a), Beam({sb}, {sa}, {a, b});
    EqualStart(cfg, g, query, a, b, level);
    EqualRound(cfg, g, query, a, b, level);
    ExploreStep(cfg, g, query, 1, level, b0);
    ExploreStep(cfg, g, query, 1, level, b1);
    NothingLeft(cfg, g, query, 1, level, {sb}, {a, b});
    assert Final(cfg, g, query, a, 1, level).top == {sb};
    SortedUnique(Rank({sb}), [sb]);
  }

  lemma NothingLeft(cfg: Config, g: Graph, query: Vector, ef: nat, level: int, top: set<Pair>, visited: set<Id>)
    ensures Explore(cfg, g, query, ef, level, Beam({}, top, visited)).top == top
  {}

  lemma EqualStart(cfg: Config, g: Graph, query: Vector, a: Id, b: Id, level: int)
    requires Active(g, a) && Active(g, b) && a != b && Nbrs(g, a, level) == {b}
    ensures var b0 := Start(cfg, g, query, a);
      && !Stops(1, b0)
      && Round(cfg, g, query, 1, level, b0) == Beam({Score(cfg, g, query, b)}, {Score(cfg, g, query, a)}, {a, b})
  {
    var b0 := Start(cfg, g, query, a);
    StartOk(cfg, g, query, a, 1, level);
    assert Unvisited(g, level, b0) == {b};
    OneScore(cfg, g, query, b);
  }

  lemma OneScore(cfg: Config, g: Graph, query: Vector, b: Id)
    ensures Scores(cfg, g, query, {b}) == {Score(cfg, g, query, b)}
  {}

  lemma EqualRound(cfg: Config, g: Graph, query: Vector, a: Id, b: Id, level: int)
    requires Active(g, a) && Active(g, b) && a != b && Nbrs(g, b, level) == {a}
    requires cfg.dist(query, g[a].vector) == cfg.dist(query, g[b].vector)
    ensures var sa, sb := Score(cfg, g, query, a), Score(cfg, g, query, b);
      var b1 := Beam({sb}, {sa}, {a, b});
      !Stops(1, b1) && Round(cfg, g, query, 1, level, b1) == Beam({}, {sb}, {a, b})
  {
    var sa, sb := Score(cfg, g, query, a), Score(cfg, g, query, b);
    var b1 := Beam({sb}, {sa}, {a, b});
    assert First(b1.candidates) == sb && Last(b1.top) == sa;
    assert Unvisited(g, level, b1) == {} && Scores(cfg, g, query, {}) == {};
  }
}
