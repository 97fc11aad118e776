/** One table of the primary with the exact index (engine/src/engine.cc), one operation at a time: log, store,
    counters, flags and the cache of batch results. */
module Engines {
  import opened Ranking
  import opened LogEntries
  import opened FlatIndexes
  import opened StoredRecords
  import opened VectorStores
  import opened Replay
  import opened StatsManagers
  import opened BatchKeys
  import Lru = LruCaches

  // ----- what a search answers

  ghost function Lookup(store: Records, ids: seq<Id>): seq<Data> {
    if ids == [] then [] else (if ids[0] in store then [store[ids[0]]] else []) + Lookup(store, ids[1..])
  }

  /** The answer to one request on the current records, computed afresh. */
  ghost function Answer(cfg: FlatConfig, store: Records, r: Request): seq<Data> {
    if |r.query| != cfg.dim then []
    else Lookup(store, Nearest(cfg, map a | a in store :: store[a].vector, r.query, r.k))
  }

  ghost function Answers(cfg: FlatConfig, store: Records, batch: seq<Request>): seq<seq<Data>> {
    if batch == [] then [] else [Answer(cfg, store, batch[0])] + Answers(cfg, store, batch[1..])
  }

  lemma {:induction false} AnswersAt(cfg: FlatConfig, store: Records, batch: seq<Request>, results: seq<seq<Data>>)
    requires |results| == |batch| && forall i :: 0 <= i < |batch| ==> results[i] == Answer(cfg, store, batch[i])
    ensures results == Answers(cfg, store, batch)
  {
    if batch == [] {
    } else {
      AnswersAt(cfg, store, batch[1..], results[1..]);
      assert results == [results[0]] + results[1..];
    }
  }

  lemma {:induction false} FetchedRecords(store: Records, ids: seq<Id>, results: seq<Data>)
    requires AreRecords(store, ids, results)
    ensures results == Lookup(store, ids)
  {
    if ids == [] {
    } else {
      FetchedRecords(store, ids[1..], results[1..]);
      assert results == [results[0]] + results[1..];
    }
  }

  /** The answers of a batch of writes: which of them take effect. */
  function Effects(dim: nat, store: Records, ops: seq<Op>): seq<bool>
    decreases |ops|
  {
    if ops == [] then [] else [Succeeds(dim, store, ops[0])] + Effects(dim, Replay.Step(dim, store, ops[0]), ops[1..])
  }

  lemma {:induction false} EffectsSnoc(dim: nat, store: Records, ops: seq<Op>, e: Op)
    ensures Effects(dim, store, ops + [e]) == Effects(dim, store, ops) + [Succeeds(dim, Play(dim, store, ops), e)]
    ensures Play(dim, store, ops + [e]) == Replay.Step(dim, Play(dim, store, ops), e)
    decreases |ops|
  {
    if ops == [] {
      assert [] + [e] == [e] && [e][1..] == [];
      PlayOne(dim, store, e);
    } else {
      assert (ops + [e])[0] == ops[0] && (ops + [e])[1..] == ops[1..] + [e];
      EffectsSnoc(dim, Replay.Step(dim, store, ops[0]), ops[1..], e);
    }
  }

  /** What was counted as deleted since was counted as stale too. */
  predicate SameLag(before: Stats, after: Stats) {
    after.stale - after.deleted == before.stale - before.deleted
  }

  // ----- the object

  class TableEngine {
    const cfg: FlatConfig
    const primary: bool
    const useCache: bool
    const reindexThreshold: real
    const hasher: Hasher
    const store: VectorStore
    const stats: StatsManager
    const cache: Lru.LRUCache<Key, seq<seq<Data>>>
    var shutdown: bool
    var log: seq<Op>
    /** The batch whose answers were last stored under each key. */
    ghost var asked: map<Key, seq<Request>>

    /** Log, store and counters agree. */
    ghost predicate Core()
      reads this, store, store.IndexObject(), stats, cache
    {
      && store.index.Flat? && store.index.flat.cfg == cfg && store.dim == cfg.dim && store.Valid()
      && cache.Valid() && cache.capacity > 0
      && store.store == Play(cfg.dim, map[], log)
      && stats.stats.vectors == |store.store| + stats.stats.deleted && stats.stats.deleted <= stats.stats.stale
    }

    /** Every cached result is what its batch would answer now. */
    ghost predicate Fresh(records: Records)
      reads this, cache
    {
      useCache ==> forall key :: cache.At(key).Some? ==>
        key in asked && BatchKey(hasher, asked[key]) == key && cache.At(key).value == Answers(cfg, records, asked[key])
    }

    ghost predicate Valid()
      reads this, store, store.IndexObject(), stats, cache
    {
      Core() && Fresh(store.store)
    }

    constructor (cfg: FlatConfig, primary: bool, useCache: bool, threshold: real, hasher: Hasher, cacheSize: nat)
      requires cacheSize > 0
      ensures Valid() && log == [] && !shutdown && store.store == map[]
      ensures this.cfg == cfg && this.primary == primary && this.useCache == useCache && this.hasher == hasher
    {
      this.cfg := cfg;
      this.primary := primary;
      this.useCache := useCache;
      this.reindexThreshold := threshold;
      this.hasher := hasher;
      var flat := new FlatIndex(cfg);
      store := new VectorStore(Flat(flat), cfg.dim);
      stats := new StatsManager();
      cache := new Lru.LRUCache(cacheSize);
      shutdown := false;
      log := [];
      asked := map[];
    }

    // ----- writes

    /** Log first, then the store, then the flags and counters. */
    method LogInsert(id: Id, vector: Vector, content: string) returns (ok: bool)
      requires Core()
      modifies this`log, store, store.IndexObject(), stats
      ensures Core() && log == old(log) + [Entry.Insert(id, vector, content)]
      ensures ok == Succeeds(cfg.dim, old(store.store), Entry.Insert(id, vector, content))
      ensures store.store == Replay.Step(cfg.dim, old(store.store), Entry.Insert(id, vector, content))
      ensures stats.modified == (old(stats.modified) || ok) && stats.removed == old(stats.removed)
      ensures stats.stats.deleted == old(stats.stats).deleted && stats.stats.stale == old(stats.stats).stale
    {
      ghost var e: Op := Entry.Insert(id, vector, content);
      EffectsSnoc(cfg.dim, map[], log, e);
      StepSize(cfg.dim, store.store, e);
      log := log + [Entry.Insert(id, vector, content)];
      ok := store.Insert(id, vector, content);
      if ok {
        stats.SetModifiedFlag(true);
        stats.Increment(StatType.Vector);
      }
    }

    method LogRemove(id: Id) returns (ok: bool)
      requires Core()
      modifies this`log, store, store.IndexObject(), stats
      ensures Core() && log == old(log) + [Entry.Remove(id)]
      ensures ok == Succeeds(cfg.dim, old(store.store), Entry.Remove(id))
      ensures store.store == Replay.Step(cfg.dim, old(store.store), Entry.Remove(id))
      ensures stats.modified == (old(stats.modified) || ok) && stats.removed == (old(stats.removed) || ok)
      ensures stats.stats.vectors == old(stats.stats).vectors && SameLag(old(stats.stats), stats.stats)
    {
      ghost var e: Op := Entry.Remove(id);
      EffectsSnoc(cfg.dim, map[], log, e);
      StepSize(cfg.dim, store.store, e);
      log := log + [Entry.Remove(id)];
      ok := store.Remove(id);
      if ok {
        CountRemoval();
      } else {
        assert store.store == old(store.store);
      }
    }

    method CountRemoval()
      modifies stats
      ensures stats.modified && stats.removed
      ensures stats.stats == Stats(old(stats.stats).vectors, old(stats.stats).deleted + 1, old(stats.stats).stale + 1)
    {
      stats.SetModifiedFlag(true);
      stats.SetRemovedFlag(true);
      stats.Increment(StatType.Deleted);
      stats.Increment(StatType.Stale);
    }

    /** The end of every write. It is enough because an effective write has raised the modified flag. */
    method DropStale(ghost before: Records)
      requires Core() && Fresh(before) && (store.store == before || stats.modified)
      modifies cache
      ensures Valid()
      ensures useCache && stats.modified ==> cache.cache == map[]
      ensures !(useCache && stats.modified) ==> forall key :: cache.At(key) == old(cache.At(key))
    {
      if useCache && stats.modified {
        cache.InvalidateAll();
      }
    }

    method Insert(id: Id, vector: Vector, content: string) returns (ok: bool)
      requires Valid()
      modifies this`log, store, store.IndexObject(), stats, cache
      ensures Valid()
      ensures var e: Op := Entry.Insert(id, vector, content);
        if primary && !shutdown && vector != [] && content != "" then
          && log == old(log) + [e] && ok == Succeeds(cfg.dim, old(store.store), e)
          && store.store == Replay.Step(cfg.dim, old(store.store), e)
        else !ok && log == old(log) && store.store == old(store.store)
      ensures stats.stats.deleted == old(stats.stats).deleted && stats.stats.stale == old(stats.stats).stale
      ensures stats.modified == (old(stats.modified) || ok) && stats.removed == old(stats.removed)
    {
      if !primary || shutdown || vector == [] || content == "" {
        return false;
      }
      ghost var before := store.store;
      ok := LogInsert(id, vector, content);
      DropStale(before);
    }

    method Remove(id: Id) returns (ok: bool)
      requires Valid()
      modifies this`log, store, store.IndexObject(), stats, cache
      ensures Valid()
      ensures if primary && !shutdown then
          && log == old(log) + [Entry.Remove(id)] && ok == Succeeds(cfg.dim, old(store.store), Entry.Remove(id))
          && store.store == Replay.Step(cfg.dim, old(store.store), Entry.Remove(id))
        else !ok && log == old(log) && store.store == old(store.store)
      ensures stats.stats.vectors == old(stats.stats).vectors && SameLag(old(stats.stats), stats.stats)
      ensures stats.modified == (old(stats.modified) || ok) && stats.removed == (old(stats.removed) || ok)
    {
      if !primary || shutdown {
        return false;
      }
      ghost var before := store.store;
      ok := LogRemove(id);
      DropStale(before);
    }

    /** A batch is validated as a whole, then written item by item, and the cache is dropped once. */
    method BatchInsert(items: seq<(Id, Vector, string)>) returns (flags: seq<bool>)
      requires Valid()
      modifies this`log, store, store.IndexObject(), stats, cache
      ensures Valid()
      ensures var ops := Insertions(items);
        if primary && !shutdown && forall i :: 0 <= i < |items| ==> items[i].1 != [] && items[i].2 != "" then
          && log == old(log) + ops && flags == Effects(cfg.dim, old(store.store), ops)
          && store.store == Play(cfg.dim, old(store.store), ops)
        else flags == seq(|items|, i => false) && log == old(log) && store.store == old(store.store)
      ensures stats.stats.deleted == old(stats.stats).deleted && stats.stats.stale == old(stats.stats).stale
    {
      if !primary || shutdown {
        return seq(|items|, i => false);
      }
      var i := 0;
      while i < |items|
        invariant 0 <= i <= |items| && forall j :: 0 <= j < i ==> items[j].1 != [] && items[j].2 != ""
      {
        if items[i].1 == [] || items[i].2 == "" {
          return seq(|items|, i => false);
        }
        i := i + 1;
      }
      ghost var before := store.store;
      flags := InsertEach(items);
      DropStale(before);
    }

    method InsertEach(items: seq<(Id, Vector, string)>) returns (flags: seq<bool>)
      requires Core()
      modifies this`log, store, store.IndexObject(), stats
      ensures Core() && log == old(log) + Insertions(items)
      ensures flags == Effects(cfg.dim, old(store.store), Insertions(items))
      ensures store.store == Play(cfg.dim, old(store.store), Insertions(items))
      ensures store.store == old(store.store) || stats.modified
      ensures stats.stats.deleted == old(stats.stats).deleted && stats.stats.stale == old(stats.stats).stale
    {
      ghost var before, ops := store.store, Insertions(items);
      flags := [];
      var i := 0;
      assert ops[..0] == [] && log + [] == log;
      while i < |items|
        invariant 0 <= i <= |items| && Core()
        invariant log == old(log) + ops[..i]
        invariant flags == Effects(cfg.dim, before, ops[..i]) && store.store == Play(cfg.dim, before, ops[..i])
        invariant store.store == before || stats.modified
        invariant stats.stats.deleted == old(stats.stats).deleted && stats.stats.stale == old(stats.stats).stale
      {
        assert ops[..i + 1] == ops[..i] + [ops[i]];
        EffectsSnoc(cfg.dim, before, ops[..i], ops[i]);
        ghost var records := store.store;
        var ok := LogInsert(items[i].0, items[i].1, items[i].2);
        assert !ok ==> store.store == records;
        flags := flags + [ok];
        i := i + 1;
      }
      assert ops[..i] == ops;
    }

    method BatchRemove(ids: seq<Id>) returns (flags: seq<bool>)
      requires Valid()
      modifies this`log, store, store.IndexObject(), stats, cache
      ensures Valid()
      ensures var ops := Removals(ids);
        if primary && !shutdown then
          && log == old(log) + ops && flags == Effects(cfg.dim, old(store.store), ops)
          && store.store == Play(cfg.dim, old(store.store), ops)
        else flags == seq(|ids|, i => false) && log == old(log) && store.store == old(store.store)
      ensures stats.stats.vectors == old(stats.stats).vectors && SameLag(old(stats.stats), stats.stats)
    {
      if !primary || shutdown {
        return seq(|ids|, i => false);
      }
      ghost var before := store.store;
      flags := RemoveEach(ids);
      DropStale(before);
    }

    method RemoveEach(ids: seq<Id>) returns (flags: seq<bool>)
      requires Core()
      modifies this`log, store, store.IndexObject(), stats
      ensures Core() && log == old(log) + Removals(ids)
      ensures flags == Effects(cfg.dim, old(store.store), Removals(ids))
      ensures store.store == Play(cfg.dim, old(store.store), Removals(ids))
      ensures store.store == old(store.store) || stats.modified
      ensures stats.stats.vectors == old(stats.stats).vectors && SameLag(old(stats.stats), stats.stats)
    {
      ghost var before, ops := store.store, Removals(ids);
      flags := [];
      var i := 0;
      assert ops[..0] == [] && log + [] == log;
      while i < |ids|
        invariant 0 <= i <= |ids| && Core()
        invariant log == old(log) + ops[..i]
        invariant flags == Effects(cfg.dim, before, ops[..i]) && store.store == Play(cfg.dim, before, ops[..i])
        invariant store.store == before || stats.modified
        invariant stats.stats.vectors == old(stats.stats).vectors && SameLag(old(stats.stats), stats.stats)
      {
        assert ops[..i + 1] == ops[..i] + [ops[i]];
        EffectsSnoc(cfg.dim, before, ops[..i], ops[i]);
        ghost var records := store.store;
        var ok := LogRemove(ids[i]);
        assert !ok ==> store.store == records;
        flags := flags + [ok];
        i := i + 1;
      }
      assert ops[..i] == ops;
    }

    // ----- reads

    method SearchAfresh(r: Request) returns (results: seq<Data>)
      requires Core()
      ensures results == Answer(cfg, store.store, r)
    {
      ghost var hits;
      assert store.View() == FlatView(cfg, map a | a in store.store :: store.store[a].vector);
      results, hits := store.Search(r.query, r.k, r.param);
      FetchedRecords(store.store, hits, results);
    }

    /** The requests of a batch; the thread pool runs them in some order, which cannot matter. */
    method SearchAll(requests: seq<Request>) returns (results: seq<seq<Data>>)
      requires Core()
      ensures results == Answers(cfg, store.store, requests)
    {
      results := [];
      var i := 0;
      while i < |requests|
        invariant 0 <= i <= |requests| && |results| == i
        invariant forall j :: 0 <= j < i ==> results[j] == Answer(cfg, store.store, requests[j])
      {
        var one := SearchAfresh(requests[i]);
        results := results + [one];
        i := i + 1;
      }
      AnswersAt(cfg, store.store, requests, results);
    }

    method Validate(requests: seq<Request>) returns (ok: bool)
      ensures ok == ValidBatch(requests)
    {
      var i := 0;
      while i < |requests|
        invariant 0 <= i <= |requests|
        invariant forall j :: 0 <= j < i ==> requests[j].query != [] && requests[j].k != 0
      {
        if requests[i].query == [] || requests[i].k == 0 {
          return false;
        }
        i := i + 1;
      }
      ok := true;
    }

    /** A result from the cache is what the batch that was stored under this key would answer now. So it is
        the answer to this batch whenever no other batch shares its key. */
    method BatchSearch(requests: seq<Request>) returns (results: seq<seq<Data>>, ghost answered: seq<Request>)
      requires Valid()
      modifies this`asked, cache
      ensures Valid()
      ensures shutdown || !ValidBatch(requests) ==> results == [] && answered == []
      ensures (exists i :: 0 <= i < |requests| && (requests[i].query == [] || requests[i].k == 0)) ==> results == []
      ensures !shutdown && ValidBatch(requests) ==> results == Answers(cfg, store.store, answered)
      ensures !shutdown && ValidBatch(requests) ==> answered == requests || (useCache && SharesKey(old(asked), requests, answered))
      ensures !shutdown && ValidBatch(requests) && OwnKey(old(asked), requests) ==>
        results == Answers(cfg, store.store, requests)
      ensures asked == old(asked) || asked == old(asked)[BatchKey(hasher, requests) := requests]
      ensures !shutdown && ValidBatch(requests) && useCache ==> cache.At(BatchKey(hasher, requests)) == Some(results)
    {
      var ok := Validate(requests);
      if shutdown || !ok {
        return [], [];
      }
      var key := ComputeKey(hasher, requests);
      if useCache {
        var entry := Cached(key);
        if entry.Some? {
          return entry.value, asked[key];
        }
      }
      results := SearchAll(requests);
      answered := requests;
      if useCache {
        Remember(key, requests, results);
      }
    }

    method Cached(key: Key) returns (entry: Option<seq<seq<Data>>>)
      requires Valid() && useCache
      modifies cache
      ensures Valid()
      ensures entry == cache.At(key)
      ensures entry.Some? ==>
        key in asked && BatchKey(hasher, asked[key]) == key && entry.value == Answers(cfg, store.store, asked[key])
    {
      entry := cache.Get(key);
    }

    method Remember(key: Key, requests: seq<Request>, results: seq<seq<Data>>)
      requires Valid() && useCache && key == BatchKey(hasher, requests) && results == Answers(cfg, store.store, requests)
      modifies this`asked, cache
      ensures Valid() && asked == old(asked)[key := requests] && cache.At(key) == Some(results)
    {
      cache.Store(key, results);
      asked := asked[key := requests];
    }

    /** No different batch asked before has the same key. */
    ghost predicate OwnKey(asked: map<Key, seq<Request>>, requests: seq<Request>) {
      forall b :: b in asked.Values && BatchKey(hasher, b) == BatchKey(hasher, requests) ==> b == requests
    }

    /** Each batch asked before is this one, or differs from it in one number of hits, one search parameter, or one
        component at an even position; and the keys are mixed with a true exclusive or. */
    ghost predicate OneChangeFromAll(asked: map<Key, seq<Request>>, requests: seq<Request>) {
      Cancels(hasher) && forall b :: b in asked.Values ==> b == requests || OneChangeApart(hasher, b, requests)
    }

    /** So a batch asked again with another number of hits is computed afresh. */
    lemma OneChangeOwnKey(asked: map<Key, seq<Request>>, requests: seq<Request>)
      requires OneChangeFromAll(asked, requests)
      ensures OwnKey(asked, requests)
    {
      forall b | b in asked.Values && BatchKey(hasher, b) == BatchKey(hasher, requests)
        ensures b == requests
      {
        if b != requests {
          OneChangeOtherKey(hasher, b, requests);
        }
      }
    }

    ghost predicate SharesKey(asked: map<Key, seq<Request>>, requests: seq<Request>, other: seq<Request>) {
      var key := BatchKey(hasher, requests);
      key in asked && other == asked[key] && BatchKey(hasher, other) == key
    }

    // ----- background

    /** `Cleanup`; with the exact index only counters and flags change. */
    method Cleanup(force: bool)
      requires Valid()
      modifies store.IndexObject(), stats
      ensures Valid() && store.store == old(store.store)
      ensures shutdown && !force ==> stats.stats == old(stats.stats)
      ensures !shutdown || force ==>
        stats.stats == Cleaned(old(stats.stats), reindexThreshold) && stats.stats.vectors == |store.store| && !stats.removed
    {
      if shutdown && !force {
        return;
      }
      var reindex := Ratio(stats.stats) > reindexThreshold;
      store.Cleanup(reindex);
      ResetCounters(reindex);
    }

    method ResetCounters(reindex: bool)
      modifies stats
      ensures stats.stats == Stats(Sub64(old(stats.stats).vectors, old(stats.stats).deleted), 0,
        if reindex then 0 else old(stats.stats).stale)
      ensures !stats.removed && stats.modified == old(stats.modified)
    {
      stats.SetRemovedFlag(false);
      stats.AdjustForDeletions();
      stats.Reset(StatType.Deleted);
      if reindex {
        stats.Reset(StatType.Stale);
      }
    }

    /** A successful sync with all replicas lowers the modified flag; the cache stays right. */
    method Synced()
      requires Valid()
      modifies stats
      ensures Valid() && !stats.modified
    {
      stats.SetModifiedFlag(false);
    }
  }

  lemma {:induction false} LookupSize(store: Records, ids: seq<Id>)
    requires forall i :: 0 <= i < |ids| ==> ids[i] in store
    ensures |Lookup(store, ids)| == |ids|
  {
    if ids == [] {
    } else {
      LookupSize(store, ids[1..]);
    }
  }

  lemma AnswerSize(cfg: FlatConfig, store: Records, r: Request)
    requires |r.query| == cfg.dim
    ensures |Answer(cfg, store, r)| == Min(r.k, |store|)
  {
    var vectors := map a | a in store :: store[a].vector;
    NearestMeaning(cfg, vectors, r.query, r.k);
    LookupSize(store, Nearest(cfg, vectors, r.query, r.k));
    assert vectors.Keys == store.Keys;
    assert |vectors| == |vectors.Keys| && |store| == |store.Keys|;
  }

  /** Two batches that share a key can have different answers, so the condition on keys is needed: ask for
      one hit with parameter 2, then for two hits with parameter 1. */
  lemma SharedKeyDifferentAnswers(h: Hasher, cfg: FlatConfig, store: Records, query: Vector)
    requires Exchanges(h) && |query| == cfg.dim && |store| >= 2
    ensures var b, c := [Request(query, 1, 2)], [Request(query, 2, 1)];
      BatchKey(h, b) == BatchKey(h, c) && Answers(cfg, store, b) != Answers(cfg, store, c)
  {
    SwapSharesKey(h, query, 1, 2);
    AnswerSize(cfg, store, Request(query, 1, 2));
    AnswerSize(cfg, store, Request(query, 2, 1));
    assert Answers(cfg, store, [Request(query, 1, 2)])[0] != Answers(cfg, store, [Request(query, 2, 1)])[0];
  }

  /** So can a batch and the same batch in another order: a cached result comes back in the order of the batch
      that was asked first. */
  lemma ReorderedDifferentAnswers(h: Hasher, cfg: FlatConfig, store: Records, query: Vector, param: nat)
    requires Exchanges(h) && |query| == cfg.dim && |store| >= 2
    ensures var a, b := Request(query, 1, param), Request(query, 2, param);
      BatchKey(h, [a, b]) == BatchKey(h, [b, a]) && Answers(cfg, store, [a, b]) != Answers(cfg, store, [b, a])
  {
    var a, b := Request(query, 1, param), Request(query, 2, param);
    assert multiset([a, b]) == multiset([b, a]);
    ReorderingSharesKey(h, [a, b], [b, a]);
    AnswerSize(cfg, store, a);
    AnswerSize(cfg, store, b);
    assert Answers(cfg, store, [a, b])[0] != Answers(cfg, store, [b, a])[0];
  }

  predicate ValidBatch(requests: seq<Request>) {
    forall i :: 0 <= i < |requests| ==> requests[i].query != [] && requests[i].k != 0
  }

  function Insertions(items: seq<(Id, Vector, string)>): (ops: seq<Op>)
    ensures |ops| == |items|
    ensures forall i :: 0 <= i < |items| ==> ops[i] == Entry.Insert(items[i].0, items[i].1, items[i].2)
  {
    seq(|items|, i requires 0 <= i < |items| => Entry.Insert(items[i].0, items[i].1, items[i].2))
  }

  function Removals(ids: seq<Id>): (ops: seq<Op>)
    ensures |ops| == |ids| && forall i :: 0 <= i < |ids| ==> ops[i] == Entry.Remove(ids[i])
  {
    seq(|ids|, i requires 0 <= i < |ids| => Entry<real>.Remove(ids[i]))
  }
}
