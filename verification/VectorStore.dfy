/** The store of one table (engine/src/store/vector_store.cc): a map from ids to records, and the index
    that it owns. */
module VectorStores {
  import opened Ranking
  import opened HnswGraph
  import Beams = BeamSearch
  import opened HnswState
  import opened HnswRuns
  import opened HnswExact
  import opened FlatIndexes
  import opened HnswIndexes
  import opened StoredRecords
  import opened Checksums

  datatype IndexRef = Flat(flat: FlatIndex) | Hnsw(hnsw: HNSWIndex)

  // ----- store and index agreement

  /** Every active node is a record of the store, with the same vector. */
  ghost predicate Agrees(g: Graph, store: map<Id, Data>) {
    forall a :: Active(g, a) ==> a in store && g[a].vector == store[a].vector
  }

  /** The graph index ignores an insertion while a soft-removed node still holds the id: the record is
      stored either way, and a search can find it exactly when no such node was there. */
  lemma InsertAgrees(cfg: Config, s: State, store: map<Id, Data>, data: Data)
    requires StateOk(cfg, s) && Agrees(s.nodes, store) && data.id !in store && |data.vector| == cfg.dim
    ensures var t := InsertResult(cfg, s, data.id, data.vector);
      && Agrees(t.nodes, store[data.id := data])
      && (Active(t.nodes, data.id) <==> data.id !in s.nodes)
  {
    if data.id !in s.nodes {
      InsertAdds(cfg, s, data.id, data.vector);
      assert forall a :: a != data.id && Active(InsertResult(cfg, s, data.id, data.vector).nodes, a) ==> Active(s.nodes, a);
    }
  }

  /** An input that does it: one id inserted into an empty table, removed, and inserted again. The record is
      stored, and no search can find it. */
  lemma ReinsertedUnsearchable(cfg: Config, id: Id, vector: Vector, again: Data)
    requires |vector| == cfg.dim && |again.vector| == cfg.dim && again.id == id
    ensures var removed := RemovedAgain(cfg, id, vector);
      var t := InsertResult(cfg, removed, id, again.vector);
      && RemoveStep(InsertResult(cfg, EMPTY, id, vector), id, removed)
      && Agrees(t.nodes, map[id := again]) && !Active(t.nodes, id)
  {
    ReinsertionIgnored(cfg, id, vector, again.vector);
  }

  lemma RemoveAgrees(cfg: Config, s: State, store: map<Id, Data>, id: Id, t: State)
    requires StateOk(cfg, s) && Agrees(s.nodes, store) && RemoveStep(s, id, t)
    ensures Agrees(t.nodes, store - {id}) && !Active(t.nodes, id)
  {
    if s.entry != None && Active(s.nodes, id) {
      assert forall a :: Active(t.nodes, a) ==> a != id && Active(s.nodes, a);
    }
  }

  lemma CleanupAgrees(cfg: Config, s: State, store: map<Id, Data>)
    requires StateOk(cfg, s) && Agrees(s.nodes, store)
    ensures Agrees(CleanupResult(s).nodes, store)
  {
    assert forall a :: Active(CleanupResult(s).nodes, a) ==> Active(s.nodes, a);
  }

  /** A reindex keeps the agreement only because the cleanup before it dropped the soft-removed nodes. */
  lemma RebuildAgrees(cfg: Config, s: State, store: map<Id, Data>, t: State)
    requires StateOk(cfg, s) && Agrees(s.nodes, store) && ReindexStep(cfg, CleanupResult(s), t)
    ensures Agrees(t.nodes, store)
  {
    RebuildKeeps(cfg, s, t);
    assert forall a :: Active(t.nodes, a) ==> a in ActiveIds(s.nodes) && Active(s.nodes, a);
  }

  /** The edges left are exactly the old ones among active nodes. */
  ghost predicate ActiveEdgesStay(g: Graph, h: Graph) {
    forall a, b, l :: b in Nbrs(h, a, l) <==> Active(g, a) && Active(g, b) && b in Nbrs(g, a, l)
  }

  lemma CleanupEdges(s: State)
    ensures ActiveEdgesStay(s.nodes, CleanupResult(s).nodes)
  {
    CleanNbrs(s.nodes);
  }

  /** If at most `m0 + 1` nodes of `g` are active, every search of `t` with room for them is exact over them. */
  ghost predicate ExactOver(cfg: Config, g: Graph, t: State) {
    cfg.m0 > 0 && cfg.efConstruction > 0 && |ActiveIds(g)| <= cfg.m0 + 1 ==>
      forall query, k, ef :: |query| == cfg.dim && ef >= |ActiveIds(g)| ==>
        SearchResult(cfg, t, query, k, ef) == Nearest(FlatConfig(cfg.dim, cfg.dist), ActiveVectors(g), query, k)
  }

  lemma RebuildExact(cfg: Config, s: State, t: State)
    requires StateOk(cfg, s) && ReindexStep(cfg, CleanupResult(s), t)
    ensures ExactOver(cfg, s.nodes, t)
  {
    if cfg.m0 > 0 && cfg.efConstruction > 0 && |ActiveIds(s.nodes)| <= cfg.m0 + 1 {
      forall query, k, ef | |query| == cfg.dim && ef >= |ActiveIds(s.nodes)|
        ensures SearchResult(cfg, t, query, k, ef) == Nearest(FlatConfig(cfg.dim, cfg.dist), ActiveVectors(s.nodes), query, k)
      {
        RebuiltTableExact(cfg, s, t, query, k, ef);
      }
    }
  }

  lemma AfterCleanup(cfg: Config, s: State, store: map<Id, Data>)
    requires StateOk(cfg, s) && Agrees(s.nodes, store)
    ensures var t := CleanupResult(s);
      && StateOk(cfg, t) && Agrees(t.nodes, store) && ActiveIds(t.nodes) == ActiveIds(s.nodes) == t.nodes.Keys
      && ActiveEdgesStay(s.nodes, t.nodes)
  {
    CleanupOk(cfg, s);
    CleanupAgrees(cfg, s, store);
    CleanupEdges(s);
  }

  lemma AfterRebuild(cfg: Config, s: State, store: map<Id, Data>, t: State)
    requires StateOk(cfg, s) && Agrees(s.nodes, store) && ReindexStep(cfg, CleanupResult(s), t)
    ensures Agrees(t.nodes, store) && ActiveIds(t.nodes) == ActiveIds(s.nodes) == t.nodes.Keys
    ensures ExactOver(cfg, s.nodes, t)
  {
    RebuildKeeps(cfg, s, t);
    RebuildAgrees(cfg, s, store, t);
    RebuildExact(cfg, s, t);
  }

  /** A record that the index ignored stays out of reach: neither a cleanup nor a rebuild makes its id
      active. */
  lemma UnsearchableStays(cfg: Config, s: State, id: Id, t: State)
    requires StateOk(cfg, s) && !Active(s.nodes, id)
    requires t == CleanupResult(s) || ReindexStep(cfg, CleanupResult(s), t)
    ensures !Active(t.nodes, id)
  {
    CleanupOk(cfg, s);
    assert id !in ActiveIds(s.nodes);
    if t != CleanupResult(s) {
      RebuildKeeps(cfg, s, t);
    }
  }

  /** What a search of the graph index returns: at most `k` distinct active ids in ascending order, and,
      when there is an entry point and room for an answer, a first hit no farther than the entry point. */
  lemma SearchMeaning(cfg: Config, s: State, query: Vector, k: nat, ef: nat)
    requires StateOk(cfg, s)
    ensures var r := SearchResult(cfg, s, query, k, ef);
      && |r| <= k && Elems(r) <= ActiveIds(s.nodes)
      && (forall i, j :: 0 <= i < j < |r| ==> Less(Score(cfg, s.nodes, query, r[i]), Score(cfg, s.nodes, query, r[j])))
      && (s.entry.Some? && k > 0 && ef > 0 ==>
            r != [] && Score(cfg, s.nodes, query, r[0]).dist <= Score(cfg, s.nodes, query, s.entry.value).dist)
  {
    if s.entry.Some? && ef > 0 {
      var e := s.entry.value;
      DescendCloser(cfg, s.nodes, query, e, ef, s.maxLevel);
      var entry := Descend(cfg, s.nodes, query, e, ef, s.maxLevel, 0);
      Beams.SearchLevelMeaning(cfg, s.nodes, query, entry, ef, 0);
      Beams.BestHit(cfg, s.nodes, query, entry, ef, 0);
      var all := Beams.SearchLevel(cfg, s.nodes, query, entry, ef, 0);
      assert forall i :: 0 <= i < |Take(all, k)| ==> Take(all, k)[i] == all[i] && all[i] in Elems(all);
    }
  }

  lemma HitsLive(cfg: Config, s: State, store: map<Id, Data>, query: Vector, k: nat, ef: nat)
    requires StateOk(cfg, s) && Agrees(s.nodes, store)
    ensures var r := SearchResult(cfg, s, query, k, ef);
      && |r| <= k && (forall i :: 0 <= i < |r| ==> r[i] in store)
      && (forall i, j :: 0 <= i < j < |r| ==> r[i] != r[j])
  {
    SearchMeaning(cfg, s, query, k, ef);
    var r := SearchResult(cfg, s, query, k, ef);
    forall i | 0 <= i < |r|
      ensures r[i] in store
    {
      assert r[i] in Elems(r);
      assert r[i] in ActiveIds(s.nodes);
      assert Active(s.nodes, r[i]);
    }
  }

  lemma {:induction false} DescendCloser(cfg: Config, g: Graph, query: Vector, entry: Id, ef: nat, hi: nat)
    requires EdgesOk(g) && entry in Above(g, hi, {}) && ef > 0
    ensures var r := Descend(cfg, g, query, entry, ef, hi, 0);
      Active(g, r) && Score(cfg, g, query, r).dist <= Score(cfg, g, query, entry).dist
    decreases hi
  {
    if hi == 0 {
    } else {
      var next := DescendStep(cfg, g, query, entry, ef, hi, 0, {});
      Beams.BestHit(cfg, g, query, entry, ef, hi);
      DescendCloser(cfg, g, query, next, ef, hi - 1);
    }
  }

  // ----- the object

  datatype IndexView = FlatView(flatConfig: FlatConfig, vectors: map<Id, Vector>) | GraphView(config: Config, state: State)

  /** The ids that an index answers with. */
  ghost function Hits(view: IndexView, query: Vector, k: nat, param: nat): seq<Id> {
    match view
    case FlatView(cfg, vectors) => Nearest(cfg, vectors, query, k)
    case GraphView(cfg, s) => SearchResult(cfg, s, query, k, param)
  }

  /** The results are the records of these ids, in this order, and the ids are distinct. */
  ghost predicate AreRecords(store: map<Id, Data>, ids: seq<Id>, results: seq<Data>) {
    && |results| == |ids|
    && (forall i :: 0 <= i < |ids| ==> ids[i] in store && results[i] == store[ids[i]])
    && (forall i, j :: 0 <= i < j < |ids| ==> ids[i] != ids[j])
  }

  method Fetch(store: map<Id, Data>, ids: seq<Id>) returns (results: seq<Data>)
    requires forall i :: 0 <= i < |ids| ==> ids[i] in store
    ensures |results| == |ids| && forall i :: 0 <= i < |ids| ==> results[i] == store[ids[i]]
  {
    results := [];
    var i := 0;
    while i < |ids|
      invariant 0 <= i <= |ids| && |results| == i
      invariant forall j :: 0 <= j < i ==> results[j] == store[ids[j]]
    {
      if ids[i] in store {
        results := results + [store[ids[i]]];
      }
      i := i + 1;
    }
  }

  class VectorStore {
    const dim: nat
    const index: IndexRef
    var store: map<Id, Data>

    ghost function IndexObject(): object {
      match index
      case Flat(f) => f
      case Hnsw(h) => h
    }

    /** With the exact index the vectors agree in full; with the graph index they agree on active nodes. */
    ghost predicate Valid()
      reads this, IndexObject()
    {
      && (forall a :: a in store ==> store[a].id == a && |store[a].vector| == dim)
      && match index
         case Flat(f) => f.cfg.dim == dim && f.vectors == map a | a in store :: store[a].vector
         case Hnsw(h) => h.cfg.dim == dim && h.Valid() && Agrees(h.nodes, store)
    }

    constructor (index: IndexRef, dim: nat)
      requires match index
        case Flat(f) => f.cfg.dim == dim && f.vectors == map[]
        case Hnsw(h) => h.cfg.dim == dim && h.Abs() == EMPTY
      ensures Valid() && this.index == index && this.dim == dim && store == map[]
    {
      this.index := index;
      this.dim := dim;
      store := map[];
      new;
      if index.Hnsw? {
        EmptyOk(index.hnsw.cfg);
      }
    }

    method Insert(id: Id, vector: Vector, content: string) returns (ok: bool)
      requires Valid()
      modifies this`store, IndexObject()
      ensures Valid()
      ensures ok <==> id !in old(store) && |vector| == dim
      ensures store == if ok then old(store)[id := Data(id, vector, content)] else old(store)
      ensures index.Hnsw? && ok ==> (Active(index.hnsw.nodes, id) <==> id !in old(index.hnsw.nodes))
      ensures index.Hnsw? && !ok ==> index.hnsw.Abs() == old(index.hnsw.Abs())
    {
      if id in store || |vector| != dim {
        return false;
      }
      ghost var before := store;
      store := store[id := Data(id, vector, content)];
      match index {
        case Flat(f) => f.Insert(id, vector);
        case Hnsw(h) =>
          InsertAgrees(h.cfg, h.Abs(), before, Data(id, vector, content));
          h.Insert(id, vector);
      }
      ok := true;
    }

    method Remove(id: Id) returns (ok: bool)
      requires Valid()
      modifies this`store, IndexObject()
      ensures Valid()
      ensures ok <==> id in old(store)
      ensures store == old(store) - {id}
      ensures index.Hnsw? ==> !Active(index.hnsw.nodes, id)
    {
      if id !in store {
        return false;
      }
      ghost var before := store;
      store := store - {id};
      match index {
        case Flat(f) => f.Remove(id);
        case Hnsw(h) =>
          ghost var s := h.Abs();
          h.Remove(id);
          RemoveAgrees(h.cfg, s, before, id, h.Abs());
      }
      ok := true;
    }

    /** What the index holds. */
    ghost function View(): IndexView
      reads this, IndexObject()
    {
      match index
      case Flat(f) => FlatView(f.cfg, f.vectors)
      case Hnsw(h) => GraphView(h.cfg, h.Abs())
    }

    /** Every index hit is a live record, so none is dropped. */
    method Search(query: Vector, k: nat, param: nat) returns (results: seq<Data>, ghost hits: seq<Id>)
      requires Valid()
      ensures hits == if |query| != dim then [] else Hits(old(View()), query, k, param)
      ensures AreRecords(store, hits, results) && |results| <= k
    {
      if |query| != dim {
        return [], [];
      }
      var ids := IndexSearch(query, k, param);
      hits := ids;
      results := Fetch(store, ids);
    }

    method IndexSearch(query: Vector, k: nat, param: nat) returns (ids: seq<Id>)
      requires Valid() && |query| == dim
      ensures ids == Hits(old(View()), query, k, param) && |ids| <= k
      ensures forall i :: 0 <= i < |ids| ==> ids[i] in store
      ensures forall i, j :: 0 <= i < j < |ids| ==> ids[i] != ids[j]
    {
      match index {
        case Flat(f) =>
          NearestMeaning(f.cfg, f.vectors, query, k);
          ids := f.Search(query, k);
          assert forall i :: 0 <= i < |ids| ==> ids[i] in f.vectors;
        case Hnsw(h) =>
          HitsLive(h.cfg, h.Abs(), store, query, k, param);
          ids := h.Search(query, k, param);
      }
    }

    method Cleanup(reindex: bool)
      requires Valid()
      modifies IndexObject()
      ensures Valid() && store == old(store)
      ensures index.Flat? ==> index.flat.vectors == old(index.flat.vectors)
      ensures index.Hnsw? ==> ActiveIds(index.hnsw.nodes) == old(ActiveIds(index.hnsw.nodes)) == index.hnsw.nodes.Keys
      ensures index.Hnsw? && !reindex ==> ActiveEdgesStay(old(index.hnsw.nodes), index.hnsw.nodes)
      ensures index.Hnsw? && !reindex ==> index.hnsw.Abs() == CleanupResult(old(index.hnsw.Abs()))
      ensures index.Hnsw? && reindex ==> ExactOver(index.hnsw.cfg, old(index.hnsw.nodes), index.hnsw.Abs())
      ensures index.Hnsw? && reindex ==>
        ReindexStep(index.hnsw.cfg, CleanupResult(old(index.hnsw.Abs())), index.hnsw.Abs())
    {
      match index {
        case Flat(f) =>
          f.Cleanup();
          if reindex {
            f.Reindex();
          }
        case Hnsw(h) =>
          ghost var s := h.Abs();
          AfterCleanup(h.cfg, s, store);
          h.Cleanup();
          if reindex {
            h.Reindex();
            AfterRebuild(h.cfg, s, store, h.Abs());
          }
      }
    }

    method ComputeChecksum() returns (checksum: nat)
      ensures checksum == Checksum(store)
    {
      checksum := ChecksumOf(store);
    }
  }
}
