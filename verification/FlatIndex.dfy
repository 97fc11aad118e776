/** The exact index (engine/src/index/flat_index.cc): a map from ids to vectors, searched in full. */
module FlatIndexes {
  import opened Ranking

  datatype FlatConfig = FlatConfig(dim: nat, dist: (Vector, Vector) -> real)

  /** The pairs that a search ranks: every listed id with its distance to the query. */
  ghost function Scored(cfg: FlatConfig, vectors: map<Id, Vector>, query: Vector, ids: set<Id>): set<Pair>
    requires ids <= vectors.Keys
  {
    set id | id in ids :: Pair(cfg.dist(query, vectors[id]), id)
  }

  /** The `k` best of the listed ids, in ascending order. */
  ghost function Best(cfg: FlatConfig, vectors: map<Id, Vector>, query: Vector, ids: set<Id>, k: nat): seq<Pair>
    requires ids <= vectors.Keys
  {
    Take(Rank(Scored(cfg, vectors, query, ids)), k)
  }

  lemma BestEmpty(cfg: FlatConfig, vectors: map<Id, Vector>, query: Vector, k: nat)
    ensures Best(cfg, vectors, query, vectors.Keys - vectors.Keys, k) == []
  {
    assert Scored(cfg, vectors, query, vectors.Keys - vectors.Keys) == {};
  }

  lemma BestPush(cfg: FlatConfig, vectors: map<Id, Vector>, query: Vector, ids: set<Id>, k: nat, id: Id)
    requires ids <= vectors.Keys && id in vectors.Keys - ids
    ensures var best := Best(cfg, vectors, query, ids, k);
      var p := Pair(cfg.dist(query, vectors[id]), id);
      && Sorted(best) && p !in best && |best| <= k
      && Take(Push(best, p), k) == Best(cfg, vectors, query, ids + {id}, k)
  {
    var P := Scored(cfg, vectors, query, ids);
    var p := Pair(cfg.dist(query, vectors[id]), id);
    assert Scored(cfg, vectors, query, ids + {id}) == P + {p};
    BoundedPush(P, p, k);
  }

  /** The exact answer to a query, and the reference for the graph index. */
  ghost function Nearest(cfg: FlatConfig, vectors: map<Id, Vector>, query: Vector, k: nat): seq<Id> {
    if |query| != cfg.dim then [] else Ids(Best(cfg, vectors, query, vectors.Keys, k))
  }

  lemma ScoredSize(cfg: FlatConfig, vectors: map<Id, Vector>, query: Vector, ids: set<Id>)
    requires ids <= vectors.Keys
    ensures |Scored(cfg, vectors, query, ids)| == |ids|
  {
    if ids != {} {
      var id :| id in ids;
      var p := Pair(cfg.dist(query, vectors[id]), id);
      ScoredSize(cfg, vectors, query, ids - {id});
      assert Scored(cfg, vectors, query, ids) == Scored(cfg, vectors, query, ids - {id}) + {p};
    }
  }

  /** What the answer means: distinct stored ids, as many as possible up to `k`, in ascending order of
      (distance, id), and every stored id left out comes after every id returned. */
  lemma NearestMeaning(cfg: FlatConfig, vectors: map<Id, Vector>, query: Vector, k: nat)
    requires |query| == cfg.dim
    ensures var r := Nearest(cfg, vectors, query, k);
      && |r| == Min(k, |vectors|)
      && (forall i :: 0 <= i < |r| ==> r[i] in vectors)
      && (forall i, j :: 0 <= i < j < |r| ==>
            Less(Pair(cfg.dist(query, vectors[r[i]]), r[i]), Pair(cfg.dist(query, vectors[r[j]]), r[j])))
      && (forall i, id :: 0 <= i < |r| && id in vectors.Keys && id !in r ==>
            Less(Pair(cfg.dist(query, vectors[r[i]]), r[i]), Pair(cfg.dist(query, vectors[id]), id)))
  {
    var P := Scored(cfg, vectors, query, vectors.Keys);
    ScoredSize(cfg, vectors, query, vectors.Keys);
    TakeRankLeast(P, k);
    var t := Take(Rank(P), k);
    var r := Nearest(cfg, vectors, query, k);
    forall i | 0 <= i < |r|
      ensures r[i] in vectors && t[i] == Pair(cfg.dist(query, vectors[r[i]]), r[i])
    {
      assert t[i] in Elems(t);
    }
    forall i, id | 0 <= i < |r| && id in vectors.Keys && id !in r
      ensures Less(t[i], Pair(cfg.dist(query, vectors[id]), id))
    {
      var p := Pair(cfg.dist(query, vectors[id]), id);
      assert p in P && t[i] in Elems(t);
      assert forall j :: 0 <= j < |t| && t[j] == p ==> r[j] == id;
    }
  }

  class FlatIndex {
    const cfg: FlatConfig
    var vectors: map<Id, Vector>

    constructor (cfg: FlatConfig)
      ensures this.cfg == cfg && vectors == map[]
    {
      this.cfg := cfg;
      vectors := map[];
    }

    constructor Load(cfg: FlatConfig, vectors: map<Id, Vector>)
      ensures this.cfg == cfg && this.vectors == vectors
    {
      this.cfg := cfg;
      this.vectors := vectors;
    }

    method Insert(id: Id, vector: Vector)
      modifies this`vectors
      ensures vectors == if |vector| != cfg.dim || id in old(vectors) then old(vectors) else old(vectors)[id := vector]
    {
      if |vector| != cfg.dim || id in vectors {
        return;
      }
      vectors := vectors[id := vector];
    }

    method Remove(id: Id)
      modifies this`vectors
      ensures vectors == old(vectors) - {id}
    {
      vectors := vectors - {id};
    }

    /** Whatever order the map is iterated in, the bounded heap ends with the exact answer. */
    method Search(query: Vector, k: nat) returns (nearest: seq<Id>)
      ensures nearest == Nearest(cfg, vectors, query, k)
    {
      if |query| != cfg.dim {
        return [];
      }
      var topK: seq<Pair> := [];
      var rest := vectors.Keys;
      BestEmpty(cfg, vectors, query, k);
      while rest != {}
        invariant rest <= vectors.Keys
        invariant topK == Best(cfg, vectors, query, vectors.Keys - rest, k)
      {
        var id :| id in rest;
        BestPush(cfg, vectors, query, vectors.Keys - rest, k, id);
        assert vectors.Keys - rest + {id} == vectors.Keys - (rest - {id});
        rest := rest - {id};
        topK := Push(topK, Pair(cfg.dist(query, vectors[id]), id));
        if |topK| > k {
          topK := topK[..|topK| - 1];
        }
      }
      assert vectors.Keys - rest == vectors.Keys;
      nearest := Drain(topK);
    }

    method Cleanup() {}

    method Reindex() {}
  }
}
