/** The graph index of engine/src/index/hnsw_index.cc as a state machine. Insertion is a function of the
    state. Removal is a relation, because any active node of the highest level may become the entry
    point, and so is the rebuild, because it inserts in the order of a hash map. */
module HnswState {
  import opened Ranking
  import opened HnswGraph
  import opened BeamSearch

  datatype State = State(nodes: Graph, levels: map<int, set<Id>>, maxLevel: int, entry: Option<Id>)

  const EMPTY := State(map[], map[], -1, None)

  function Vectors(g: Graph): map<Id, Vector> {
    map a | a in g :: g[a].vector
  }

  // ----- the invariant

  ghost function ActiveAt(g: Graph, level: int): set<Id> {
    set a | a in g && g[a].active && g[a].level == level
  }

  /** A level is registered exactly when it has active nodes, and lists exactly those. */
  ghost predicate RegistryOk(g: Graph, levels: map<int, set<Id>>) {
    && (forall l :: l in levels ==> levels[l] == ActiveAt(g, l) && levels[l] != {})
    && (forall a :: Active(g, a) ==> g[a].level in levels)
  }

  /** There is an entry point exactly when a node is active; it is an active node of the highest level. */
  ghost predicate EntryOk(g: Graph, maxLevel: int, entry: Option<Id>) {
    match entry
    case None => maxLevel == -1 && ActiveIds(g) == {}
    case Some(e) => Active(g, e) && g[e].level == maxLevel && forall a :: Active(g, a) ==> g[a].level <= maxLevel
  }

  ghost predicate StateOk(cfg: Config, s: State) {
    match s
    case State(nodes, levels, maxLevel, entry) =>
      GraphOk(cfg, nodes) && RegistryOk(nodes, levels) && EntryOk(nodes, maxLevel, entry)
  }

  // ----- the operations

  /** Greedy descent through the levels `hi` down to `lo + 1`. */
  ghost function Descend(cfg: Config, g: Graph, query: Vector, entry: Id, ef: nat, hi: int, lo: int): Id
    decreases hi - lo
  {
    if hi <= lo then entry
    else
      var nearest := SearchLevel(cfg, g, query, entry, ef, hi);
      Descend(cfg, g, query, if nearest == [] then entry else nearest[0], ef, hi - 1, lo)
  }

  /** The neighbours chosen for a new vector at one level. */
  ghost function Chosen(cfg: Config, g: Graph, vector: Vector, entry: Id, level: int): (ns: seq<Id>)
    ensures Elems(ns) <= ActiveIds(g)
  {
    var found := Elems(SearchLevel(cfg, g, vector, entry, cfg.efConstruction, level));
    SelectedMeaning(cfg, g, vector, found, level);
    Selected(cfg, g, vector, found, level)
  }

  ghost function ConnectAt(cfg: Config, g: Graph, id: Id, vector: Vector, entry: Id, level: int): (r: Graph)
    requires id in g
    ensures SameNodes(g, r)
  {
    ConnectAll(cfg, g, id, Chosen(cfg, g, vector, entry, level), level)
  }

  lemma SameNodesChain(g: Graph, h: Graph, r: Graph)
    requires SameNodes(g, h) && SameNodes(h, r)
    ensures SameNodes(g, r)
  {}

  ghost function ConnectLevels(cfg: Config, g: Graph, id: Id, vector: Vector, entry: Id, level: int): (r: Graph)
    requires id in g
    ensures SameNodes(g, r)
    decreases level + 1
  {
    if level < 0 then g
    else
      var h := ConnectAt(cfg, g, id, vector, entry, level);
      var r := ConnectLevels(cfg, h, id, vector, entry, level - 1);
      SameNodesChain(g, h, r);
      r
  }

  function Register(levels: map<int, set<Id>>, level: int, id: Id): map<int, set<Id>> {
    levels[level := (if level in levels then levels[level] else {}) + {id}]
  }

  function Fresh(cfg: Config, g: Graph, id: Id, vector: Vector): Graph {
    g[id := Node(vector, cfg.levelOf(id), map[], true)]
  }

  ghost function InsertResult(cfg: Config, s: State, id: Id, vector: Vector): State {
    if |vector| != cfg.dim || id in s.nodes then s
    else
      var level := cfg.levelOf(id);
      var g := Fresh(cfg, s.nodes, id, vector);
      var levels := Register(s.levels, level, id);
      match s.entry
      case None => State(g, levels, level, Some(id))
      case Some(e) =>
        var entry := Descend(cfg, g, vector, e, 1, s.maxLevel, level);
        var low := if s.maxLevel < level then s.maxLevel else level;
        var connected := ConnectLevels(cfg, g, id, vector, entry, low);
        if level > s.maxLevel then State(connected, levels, level, Some(id))
        else State(connected, levels, s.maxLevel, s.entry)
  }

  ghost function InsertAll(cfg: Config, s: State, items: seq<(Id, Vector)>): State
    decreases |items|
  {
    if items == [] then s else InsertAll(cfg, InsertResult(cfg, s, items[0].0, items[0].1), items[1..])
  }

  function Deactivate(g: Graph, id: Id): Graph
    requires id in g
  {
    g[id := g[id].(active := false)]
  }

  function Unregister(levels: map<int, set<Id>>, level: int, id: Id): map<int, set<Id>> {
    var left := (if level in levels then levels[level] else {}) - {id};
    if left == {} then levels - {level} else levels[level := left]
  }

  /** The downward scan for a registered level. */
  function Highest(levels: map<int, set<Id>>, from: int): int
    decreases from + 1
  {
    if from < 0 || from in levels then from else Highest(levels, from - 1)
  }

  ghost predicate RemoveStep(s: State, id: Id, t: State) {
    if s.entry == None || !Active(s.nodes, id) then t == s
    else
      && t.nodes == Deactivate(s.nodes, id)
      && t.levels == Unregister(s.levels, s.nodes[id].level, id)
      && if s.entry != Some(id) then t.maxLevel == s.maxLevel && t.entry == s.entry
         else
           && t.maxLevel == Highest(t.levels, s.maxLevel)
           && match t.entry
              case None => t.maxLevel !in t.levels || forall a :: a in t.levels[t.maxLevel] ==> !Active(t.nodes, a)
              case Some(e) => t.maxLevel in t.levels && e in t.levels[t.maxLevel] && Active(t.nodes, e)
  }

  /** Only active nodes stay, with only the edges among them. */
  ghost function CleanNode(g: Graph, n: Node): Node {
    n.(neighbors := map l | l in n.neighbors :: ActiveOf(g, n.neighbors[l]))
  }

  ghost function CleanGraph(g: Graph): Graph {
    map a | a in g && g[a].active :: CleanNode(g, g[a])
  }

  ghost function CleanupResult(s: State): State {
    s.(nodes := CleanGraph(s.nodes))
  }

  /** A listing of a map in some order. */
  ghost predicate Lists(items: seq<(Id, Vector)>, vectors: map<Id, Vector>) {
    && (forall i, j :: 0 <= i < j < |items| ==> items[i].0 != items[j].0)
    && (forall i :: 0 <= i < |items| ==> items[i].0 in vectors && items[i].1 == vectors[items[i].0])
    && (forall a :: a in vectors ==> (a, vectors[a]) in items)
  }

  ghost predicate ReindexStep(cfg: Config, s: State, t: State) {
    exists items :: Lists(items, Vectors(s.nodes)) && t == InsertAll(cfg, EMPTY, items)
  }

  ghost function SearchResult(cfg: Config, s: State, query: Vector, k: nat, ef: nat): seq<Id> {
    match s.entry
    case None => []
    case Some(e) => Take(SearchLevel(cfg, s.nodes, query, Descend(cfg, s.nodes, query, e, ef, s.maxLevel, 0), ef, 0), k)
  }

  // ----- insertion keeps the invariant

  ghost function Above(g: Graph, level: int, but: set<Id>): set<Id> {
    set a | a in g && g[a].active && g[a].level >= level && a !in but
  }

  lemma AboveClosed(g: Graph, level: int, but: set<Id>)
    requires EdgesOk(g) && forall b :: b in but ==> Nbrs(g, b, level) == {}
    ensures Closed(g, level, Above(g, level, but))
  {
    forall a, b | a in Above(g, level, but) && b in ActiveNbrs(g, a, level)
      ensures b in Above(g, level, but)
    {
      assert EdgeOk(g, a, b, level);
    }
  }

  /** A search never leaves the nodes of its level, nor meets a node that has no edges there. */
  lemma SearchStays(cfg: Config, g: Graph, query: Vector, entry: Id, ef: nat, level: int, but: set<Id>)
    requires EdgesOk(g) && forall b :: b in but ==> Nbrs(g, b, level) == {}
    requires entry in Above(g, level, but) && ef > 0
    ensures Elems(SearchLevel(cfg, g, query, entry, ef, level)) <= Above(g, level, but)
    ensures SearchLevel(cfg, g, query, entry, ef, level) != []
  {
    AboveClosed(g, level, but);
    SearchLevelMeaning(cfg, g, query, entry, ef, level);
    VisitedReachable(cfg, g, query, entry, ef, level, Above(g, level, but));
  }

  lemma {:induction false} DescendOk(cfg: Config, g: Graph, query: Vector, entry: Id, ef: nat, hi: int, lo: int, but: set<Id>)
    requires EdgesOk(g) && entry in Above(g, hi, but) && ef > 0
    requires forall b, l :: b in but ==> Nbrs(g, b, l) == {}
    ensures var r := Descend(cfg, g, query, entry, ef, hi, lo);
      r in Above(g, if hi <= lo then hi else lo + 1, but)
    decreases hi - lo
  {
    if hi <= lo {
    } else {
      SearchStays(cfg, g, query, entry, ef, hi, but);
      var nearest := SearchLevel(cfg, g, query, entry, ef, hi);
      assert nearest[0] in Elems(nearest);
      DescendOk(cfg, g, query, nearest[0], ef, hi - 1, lo, but);
    }
  }

  /** One level of the descent. */
  lemma DescendStep(cfg: Config, g: Graph, query: Vector, entry: Id, ef: nat, hi: int, lo: int, but: set<Id>)
      returns (next: Id)
    requires EdgesOk(g) && entry in Above(g, hi, but) && ef > 0 && hi > lo
    requires forall b, l :: b in but ==> Nbrs(g, b, l) == {}
    ensures var nearest := SearchLevel(cfg, g, query, entry, ef, hi);
      && nearest != [] && nearest[0] == next && next in Above(g, hi - 1, but)
      && Descend(cfg, g, query, entry, ef, hi, lo) == Descend(cfg, g, query, next, ef, hi - 1, lo)
  {
    SearchStays(cfg, g, query, entry, ef, hi, but);
    HeadIn(SearchLevel(cfg, g, query, entry, ef, hi));
    next := SearchLevel(cfg, g, query, entry, ef, hi)[0];
  }

  lemma ChosenOk(cfg: Config, g: Graph, id: Id, vector: Vector, entry: Id, level: int)
    requires EdgesOk(g) && Nbrs(g, id, level) == {}
    requires entry in Above(g, level, {id})
    ensures var ns := Chosen(cfg, g, vector, entry, level);
      && Elems(ns) <= Above(g, level, {id}) && |ns| <= Cap(cfg, level)
      && (cfg.efConstruction > 0 && Cap(cfg, level) > 0 ==> ns != [])
  {
    var found := SearchLevel(cfg, g, vector, entry, cfg.efConstruction, level);
    SelectedMeaning(cfg, g, vector, Elems(found), level);
    if cfg.efConstruction > 0 {
      SearchStays(cfg, g, vector, entry, cfg.efConstruction, level, {id});
      assert found[0] in Elems(found);
      assert found[0] in ActiveOf(g, Elems(found));
    }
  }

  /** The state of an insertion about to connect `id` at `level` and below. */
  ghost predicate Connecting(cfg: Config, g: Graph, id: Id, entry: Id, level: int) {
    && GraphOk(cfg, g) && id in g && g[id].level >= level
    && (forall l :: l <= level ==> Nbrs(g, id, l) == {})
    && entry in Above(g, level, {id})
  }

  /** The nodes chosen for a new node can be connected to it. */
  lemma ChosenFit(cfg: Config, g: Graph, id: Id, vector: Vector, entry: Id, level: int) returns (ns: seq<Id>)
    requires Connecting(cfg, g, id, entry, level)
    ensures ns == Chosen(cfg, g, vector, entry, level)
    ensures Elems(ns) <= g.Keys && id !in ns && |ns| <= Cap(cfg, level)
    ensures forall n :: n in ns ==> level <= g[n].level
  {
    ns := Chosen(cfg, g, vector, entry, level);
    ChosenOk(cfg, g, id, vector, entry, level);
    assert forall n :: n in ns ==> n in Elems(ns);
  }

  lemma StillConnecting(cfg: Config, g: Graph, h: Graph, id: Id, entry: Id, level: int)
    requires Connecting(cfg, g, id, entry, level)
    requires GraphOk(cfg, h) && OtherLevelsSame(g, h, level) && SameNodes(g, h)
    ensures Connecting(cfg, h, id, entry, level - 1)
  {
    assert forall l :: l <= level - 1 ==> Nbrs(h, id, l) == Nbrs(g, id, l);
  }

  lemma ConnectAtOk(cfg: Config, g: Graph, id: Id, vector: Vector, entry: Id, level: int) returns (h: Graph)
    requires Connecting(cfg, g, id, entry, level) && level >= 0
    ensures h == ConnectAt(cfg, g, id, vector, entry, level)
    ensures Connecting(cfg, h, id, entry, level - 1) && OtherLevelsSame(g, h, level)
  {
    var ns := ChosenFit(cfg, g, id, vector, entry, level);
    h := ConnectAll(cfg, g, id, ns, level);
    ConnectAllOk(cfg, g, id, ns, level);
    assert h == ConnectAt(cfg, g, id, vector, entry, level);
    StillConnecting(cfg, g, h, id, entry, level);
  }

  /** The levels above 0 leave level 0 as it was: `h0` is the graph when level 0 is about to be connected. */
  lemma {:induction false} ConnectLevelsOk(cfg: Config, g: Graph, id: Id, vector: Vector, entry: Id, level: nat)
      returns (h0: Graph)
    requires Connecting(cfg, g, id, entry, level)
    ensures Connecting(cfg, h0, id, entry, 0)
    ensures ConnectLevels(cfg, g, id, vector, entry, level) == ConnectAt(cfg, h0, id, vector, entry, 0)
    ensures h0.Keys == g.Keys && SameLevel(g, h0, 0)
    decreases level
  {
    if level == 0 {
      h0 := g;
      LastLevel(cfg, g, id, vector, entry);
    } else {
      var h := ConnectAtOk(cfg, g, id, vector, entry, level);
      assert SameLevel(g, h, 0);
      h0 := ConnectLevelsOk(cfg, h, id, vector, entry, level - 1);
    }
  }

  ghost predicate SameLevel(g: Graph, h: Graph, level: int) {
    forall a :: Nbrs(g, a, level) == Nbrs(h, a, level)
  }

  lemma LastLevel(cfg: Config, g: Graph, id: Id, vector: Vector, entry: Id)
    requires id in g
    ensures ConnectLevels(cfg, g, id, vector, entry, 0) == ConnectAt(cfg, g, id, vector, entry, 0)
  {
    var h := ConnectAt(cfg, g, id, vector, entry, 0);
    assert ConnectLevels(cfg, h, id, vector, entry, -1) == h;
  }

  lemma FreshOk(cfg: Config, g: Graph, id: Id, vector: Vector)
    requires GraphOk(cfg, g) && id !in g && |vector| == cfg.dim
    ensures var h := Fresh(cfg, g, id, vector);
      GraphOk(cfg, h) && forall a, l :: Nbrs(h, a, l) == if a == id then {} else Nbrs(g, a, l)
  {
    var h := Fresh(cfg, g, id, vector);
    forall a, l
      ensures Nbrs(h, a, l) == if a == id then {} else Nbrs(g, a, l)
      ensures |Nbrs(h, a, l)| <= Cap(cfg, l)
    {
      assert |Nbrs(g, a, l)| <= Cap(cfg, l);
    }
    forall a, b, l | b in Nbrs(h, a, l)
      ensures EdgeOk(h, a, b, l)
    {
      assert EdgeOk(g, a, b, l);
    }
  }

  lemma RegisterOk(g: Graph, levels: map<int, set<Id>>, h: Graph, level: nat, id: Id)
    requires RegistryOk(g, levels) && id !in g
    requires h.Keys == g.Keys + {id} && h[id].active && h[id].level == level
    requires forall a :: a in g ==> h[a].active == g[a].active && h[a].level == g[a].level
    ensures RegistryOk(h, Register(levels, level, id))
  {
    var r := Register(levels, level, id);
    forall l | l in r
      ensures r[l] == ActiveAt(h, l) && r[l] != {}
    {
      assert ActiveAt(h, l) == ActiveAt(g, l) + if l == level then {id} else {};
      if l == level && l !in levels {
        assert forall a :: a in ActiveAt(g, l) ==> Active(g, a);
        assert ActiveAt(g, l) == {};
      }
    }
    forall a | Active(h, a)
      ensures h[a].level in r
    {
      assert a != id ==> Active(g, a);
    }
  }

  /** Where an insertion into a nonempty index starts to connect, and from which entry. */
  lemma InsertConnects(cfg: Config, s: State, id: Id, vector: Vector) returns (entry: Id, low: nat)
    requires StateOk(cfg, s) && |vector| == cfg.dim && id !in s.nodes && s.entry.Some?
    ensures entry == Descend(cfg, Fresh(cfg, s.nodes, id, vector), vector, s.entry.value, 1, s.maxLevel, cfg.levelOf(id))
    ensures low == if s.maxLevel < cfg.levelOf(id) then s.maxLevel else cfg.levelOf(id)
    ensures Connecting(cfg, Fresh(cfg, s.nodes, id, vector), id, entry, low)
    ensures InsertResult(cfg, s, id, vector).nodes ==
      ConnectLevels(cfg, Fresh(cfg, s.nodes, id, vector), id, vector, entry, low)
  {
    var g := Fresh(cfg, s.nodes, id, vector);
    var level := cfg.levelOf(id);
    FreshOk(cfg, s.nodes, id, vector);
    DescendOk(cfg, g, vector, s.entry.value, 1, s.maxLevel, level, {id});
    entry := Descend(cfg, g, vector, s.entry.value, 1, s.maxLevel, level);
    low := if s.maxLevel < level then s.maxLevel else level;
  }

  /** The graph of an insertion when it is about to connect level 0. */
  lemma InsertReachesZero(cfg: Config, s: State, id: Id, vector: Vector) returns (entry: Id, h0: Graph)
    requires StateOk(cfg, s) && |vector| == cfg.dim && id !in s.nodes && s.entry.Some?
    ensures Connecting(cfg, h0, id, entry, 0) && h0.Keys == s.nodes.Keys + {id}
    ensures InsertResult(cfg, s, id, vector).nodes == ConnectAt(cfg, h0, id, vector, entry, 0)
    ensures SameLevel(Fresh(cfg, s.nodes, id, vector), h0, 0)
  {
    var low;
    entry, low := InsertConnects(cfg, s, id, vector);
    h0 := ConnectLevelsOk(cfg, Fresh(cfg, s.nodes, id, vector), id, vector, entry, low);
  }

  lemma InsertConnectOk(cfg: Config, s: State, id: Id, vector: Vector)
    requires StateOk(cfg, s) && |vector| == cfg.dim && id !in s.nodes && s.entry.Some?
    ensures GraphOk(cfg, InsertResult(cfg, s, id, vector).nodes)
  {
    var entry, h0 := InsertReachesZero(cfg, s, id, vector);
    var h := ConnectAtOk(cfg, h0, id, vector, entry, 0);
  }

  lemma InsertOk(cfg: Config, s: State, id: Id, vector: Vector)
    requires StateOk(cfg, s)
    ensures StateOk(cfg, InsertResult(cfg, s, id, vector))
  {
    if |vector| == cfg.dim && id !in s.nodes {
      var t := InsertResult(cfg, s, id, vector);
      var g := Fresh(cfg, s.nodes, id, vector);
      FreshOk(cfg, s.nodes, id, vector);
      if s.entry.Some? {
        InsertConnectOk(cfg, s, id, vector);
      }
      assert SameNodes(g, t.nodes);
      RegisterOk(s.nodes, s.levels, t.nodes, cfg.levelOf(id), id);
      InsertEntryOk(cfg, s, id, vector);
    }
  }

  lemma InsertEntryOk(cfg: Config, s: State, id: Id, vector: Vector)
    requires EntryOk(s.nodes, s.maxLevel, s.entry) && |vector| == cfg.dim && id !in s.nodes
    requires SameNodes(Fresh(cfg, s.nodes, id, vector), InsertResult(cfg, s, id, vector).nodes)
    ensures var t := InsertResult(cfg, s, id, vector);
      EntryOk(t.nodes, t.maxLevel, t.entry)
  {
    var t := InsertResult(cfg, s, id, vector);
    assert forall a :: Active(t.nodes, a) <==> a == id || Active(s.nodes, a);
    assert s.entry == None ==> forall a :: Active(s.nodes, a) ==> a in ActiveIds(s.nodes);
  }
}
