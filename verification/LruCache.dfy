/** The least-recently-used cache (engine/src/cache/lru_cache.cc): a map and a recency list. */
module LruCaches {
  import opened Ranking

  // ----- the recency list, oldest first

  type Items<K, V> = seq<(K, V)>

  ghost function KeySet<K, V>(s: Items<K, V>): set<K> {
    set i | 0 <= i < |s| :: s[i].0
  }

  ghost predicate Distinct<K, V>(s: Items<K, V>) {
    forall i, j :: 0 <= i < j < |s| ==> s[i].0 != s[j].0
  }

  /** The items whose keys are in `K`, in order. */
  ghost function Keep<K, V>(s: Items<K, V>, keys: set<K>): Items<K, V> {
    if s == [] then [] else (if s[0].0 in keys then [s[0]] else []) + Keep(s[1..], keys)
  }

  ghost function Without<K, V>(s: Items<K, V>, key: K): Items<K, V> {
    Keep(s, KeySet(s) - {key})
  }

  ghost function Find<K, V>(s: Items<K, V>, key: K): Option<V> {
    if s == [] then None else if s[0].0 == key then Some(s[0].1) else Find(s[1..], key)
  }

  datatype Op<K, V> = Get(key: K) | Store(key: K, value: V) | Invalidate(key: K) | InvalidateAll

  /** What one operation does to the recency list of a cache with this capacity. */
  ghost function Step<K, V>(capacity: nat, s: Items<K, V>, op: Op<K, V>): Items<K, V> {
    match op
    case Get(key) =>
      (match Find(s, key)
       case None => s
       case Some(value) => Without(s, key) + [(key, value)])
    case Store(key, value) =>
      if key in KeySet(s) then Without(s, key) + [(key, value)]
      else if |s| == capacity && s != [] then s[1..] + [(key, value)]
      else s + [(key, value)]
    case Invalidate(key) => Without(s, key)
    case InvalidateAll => []
  }

  ghost function Run<K, V>(capacity: nat, s: Items<K, V>, ops: seq<Op<K, V>>): Items<K, V>
    decreases |ops|
  {
    if ops == [] then s else Run(capacity, Step(capacity, s, ops[0]), ops[1..])
  }

  // ----- lists of distinct keys

  lemma {:induction false} KeepConcat<K, V>(a: Items<K, V>, b: Items<K, V>, keys: set<K>)
    ensures Keep(a + b, keys) == Keep(a, keys) + Keep(b, keys)
  {
    if a == [] {
      assert a + b == b;
    } else {
      assert (a + b)[0] == a[0] && (a + b)[1..] == a[1..] + b;
      KeepConcat(a[1..], b, keys);
      var head := if a[0].0 in keys then [a[0]] else [];
      assert head + (Keep(a[1..], keys) + Keep(b, keys)) == (head + Keep(a[1..], keys)) + Keep(b, keys);
    }
  }

  lemma KeySetCons<K, V>(s: Items<K, V>)
    requires s != []
    ensures KeySet(s) == {s[0].0} + KeySet(s[1..])
  {
    forall i | 0 < i < |s|
      ensures s[i].0 in KeySet(s[1..])
    {
      assert s[1..][i - 1] == s[i];
    }
    forall i | 0 <= i < |s[1..]|
      ensures s[1..][i].0 in KeySet(s)
    {
      assert s[1..][i] == s[i + 1];
    }
  }

  lemma {:induction false} KeepSame<K, V>(s: Items<K, V>, p: set<K>, q: set<K>)
    requires forall k :: k in KeySet(s) ==> (k in p <==> k in q)
    ensures Keep(s, p) == Keep(s, q)
  {
    if s == [] {
    } else {
      KeySetCons(s);
      KeepSame(s[1..], p, q);
    }
  }

  lemma {:induction false} KeepAll<K, V>(s: Items<K, V>, keys: set<K>)
    requires KeySet(s) <= keys
    ensures Keep(s, keys) == s
  {
    if s == [] {
    } else {
      KeySetCons(s);
      KeepAll(s[1..], keys);
    }
  }

  lemma {:induction false} KeepTwice<K, V>(s: Items<K, V>, p: set<K>, q: set<K>)
    ensures Keep(Keep(s, p), q) == Keep(s, p * q)
  {
    if s == [] {
    } else {
      var head := if s[0].0 in p then [s[0]] else [];
      KeepConcat(head, Keep(s[1..], p), q);
      KeepTwice(s[1..], p, q);
      assert s[0].0 in p ==> [s[0]][1..] == [];
    }
  }

  lemma {:induction false} KeepKeys<K, V>(s: Items<K, V>, keys: set<K>)
    requires Distinct(s)
    ensures Distinct(Keep(s, keys)) && KeySet(Keep(s, keys)) == KeySet(s) * keys
  {
    if s == [] {
    } else {
      var rest := Keep(s[1..], keys);
      KeySetCons(s);
      KeepKeys(s[1..], keys);
      assert s[0].0 !in KeySet(s[1..]);
      if s[0].0 !in keys {
        assert Keep(s, keys) == rest;
      } else {
        var r := [s[0]] + rest;
        KeySetCons(r);
        assert r[1..] == rest;
        forall i, j | 0 <= i < j < |r|
          ensures r[i].0 != r[j].0
        {
          assert r[j].0 == rest[j - 1].0;
          assert r[j].0 in KeySet(rest);
        }
      }
    }
  }

  lemma {:induction false} KeySetSize<K, V>(s: Items<K, V>)
    requires Distinct(s)
    ensures |KeySet(s)| == |s|
  {
    if s == [] {
    } else {
      KeySetCons(s);
      KeySetSize(s[1..]);
      assert s[0].0 !in KeySet(s[1..]);
    }
  }

  lemma {:induction false} FindOk<K, V>(s: Items<K, V>, key: K)
    ensures Find(s, key).Some? <==> key in KeySet(s)
    ensures forall i :: Distinct(s) && 0 <= i < |s| && s[i].0 == key ==> Find(s, key) == Some(s[i].1)
  {
    if s == [] {
    } else {
      KeySetCons(s);
      FindOk(s[1..], key);
      assert forall i :: 0 < i < |s| ==> s[i] == s[1..][i - 1];
    }
  }

  lemma WithoutOk<K, V>(s: Items<K, V>, key: K)
    requires Distinct(s)
    ensures Distinct(Without(s, key)) && KeySet(Without(s, key)) == KeySet(s) - {key}
    ensures |Without(s, key)| == if key in KeySet(s) then |s| - 1 else |s|
  {
    KeepKeys(s, KeySet(s) - {key});
    KeySetSize(s);
    KeySetSize(Without(s, key));
  }

  lemma AppendOk<K, V>(s: Items<K, V>, key: K, value: V)
    requires Distinct(s) && key !in KeySet(s)
    ensures Distinct(s + [(key, value)]) && KeySet(s + [(key, value)]) == KeySet(s) + {key}
  {
    var r := s + [(key, value)];
    assert r[|s|].0 == key;
    assert forall i :: 0 <= i < |s| ==> r[i] == s[i] && s[i].0 in KeySet(s);
  }

  // ----- one cache

  /** Every operation keeps the keys distinct and the capacity respected. */
  ghost predicate Fits<K, V>(capacity: nat, s: Items<K, V>) {
    Distinct(s) && |s| <= capacity
  }

  lemma PopFront<K, V>(s: Items<K, V>)
    requires Distinct(s) && s != []
    ensures Distinct(s[1..]) && KeySet(s[1..]) == KeySet(s) - {s[0].0} && s[1..] == Without(s, s[0].0)
  {
    KeySetCons(s);
    assert s[0].0 !in KeySet(s[1..]);
    KeepSame(s[1..], KeySet(s) - {s[0].0}, KeySet(s[1..]));
    KeepAll(s[1..], KeySet(s[1..]));
  }

  lemma StepFits<K, V>(capacity: nat, s: Items<K, V>, op: Op<K, V>)
    requires Fits(capacity, s) && capacity > 0
    ensures Fits(capacity, Step(capacity, s, op))
  {
    match op
    case Get(key) =>
      FindOk(s, key);
      WithoutOk(s, key);
      if key in KeySet(s) {
        AppendOk(Without(s, key), key, Find(s, key).value);
      }
    case Store(key, value) =>
      WithoutOk(s, key);
      if key in KeySet(s) {
        AppendOk(Without(s, key), key, value);
      } else if |s| == capacity {
        PopFront(s);
        AppendOk(s[1..], key, value);
      } else {
        AppendOk(s, key, value);
      }
    case Invalidate(key) =>
      WithoutOk(s, key);
    case InvalidateAll =>
  }

  // ----- a smaller and a larger cache on the same trace

  /** The smaller cache is the larger one with some items left out, in the same order and with the same
      values, and the larger one is not fuller than the difference of the capacities allows. */
  ghost predicate Included<K, V>(c: nat, d: nat, small: Items<K, V>, large: Items<K, V>) {
    && Fits(c, small) && Fits(d, large) && c <= d
    && KeySet(small) <= KeySet(large)
    && small == Keep(large, KeySet(small))
    && |large| - |small| <= d - c
  }

  lemma {:induction false} KeepFind<K, V>(s: Items<K, V>, keys: set<K>, key: K)
    requires key in keys
    ensures Find(Keep(s, keys), key) == Find(s, key)
  {
    if s == [] {
    } else {
      KeepFind(s[1..], keys, key);
      var rest := Keep(s[1..], keys);
      if s[0].0 in keys {
        assert ([s[0]] + rest)[1..] == rest;
      } else {
        assert [] + rest == rest;
      }
    }
  }

  /** What the smaller cache holds, the larger holds with the same value. */
  lemma HitInBoth<K, V>(c: nat, d: nat, small: Items<K, V>, large: Items<K, V>, key: K)
    requires Included(c, d, small, large) && Find(small, key).Some?
    ensures Find(large, key) == Find(small, key)
  {
    FindOk(small, key);
    KeepFind(large, KeySet(small), key);
  }

  /** Leaving out one key leaves it out on both sides. */
  lemma WithoutKeep<K, V>(small: Items<K, V>, large: Items<K, V>, key: K)
    requires Distinct(small) && Distinct(large) && KeySet(small) <= KeySet(large) && small == Keep(large, KeySet(small))
    ensures Without(small, key) == Keep(Without(large, key), KeySet(small) - {key})
    ensures KeySet(Without(small, key)) == KeySet(small) - {key}
  {
    var K := KeySet(small);
    WithoutOk(small, key);
    KeepTwice(large, K, K - {key});
    KeepTwice(large, KeySet(large) - {key}, K - {key});
    assert K * (K - {key}) == (KeySet(large) - {key}) * (K - {key});
  }

  /** The larger cache may lose a key that the smaller one does not have. */
  lemma OutsideKeep<K, V>(small: Items<K, V>, large: Items<K, V>, key: K)
    requires Distinct(large) && KeySet(small) <= KeySet(large) && small == Keep(large, KeySet(small))
    requires key !in KeySet(small)
    ensures small == Keep(Without(large, key), KeySet(small))
  {
    KeepTwice(large, KeySet(large) - {key}, KeySet(small));
    assert (KeySet(large) - {key}) * KeySet(small) == KeySet(small);
  }

  /** Both get the same new last item. */
  lemma AppendBoth<K, V>(small: Items<K, V>, large: Items<K, V>, key: K, value: V)
    requires Distinct(small) && Distinct(large) && KeySet(small) <= KeySet(large) && small == Keep(large, KeySet(small))
    requires key !in KeySet(large)
    ensures var s, l := small + [(key, value)], large + [(key, value)];
      && Distinct(s) && Distinct(l) && KeySet(s) <= KeySet(l) && s == Keep(l, KeySet(s))
      && |s| == |small| + 1 && |l| == |large| + 1
  {
    AppendOk(small, key, value);
    AppendOk(large, key, value);
    var K := KeySet(small) + {key};
    KeepConcat(large, [(key, value)], K);
    KeepSame(large, K, KeySet(small));
    assert [(key, value)][1..] == [];
  }

  /** Only the larger cache moves or adds an item at its end. */
  lemma AppendLarge<K, V>(small: Items<K, V>, large: Items<K, V>, key: K, value: V)
    requires Distinct(large) && KeySet(small) <= KeySet(large) && small == Keep(large, KeySet(small))
    requires key !in KeySet(large)
    ensures var l := large + [(key, value)];
      Distinct(l) && KeySet(small) <= KeySet(l) && small == Keep(l, KeySet(small)) && |l| == |large| + 1
  {
    AppendOk(large, key, value);
    KeepConcat(large, [(key, value)], KeySet(small));
    assert [(key, value)][1..] == [];
  }

  /** The smaller cache evicts its oldest item. */
  lemma EvictSmall<K, V>(small: Items<K, V>, large: Items<K, V>)
    requires Distinct(small) && Distinct(large) && KeySet(small) <= KeySet(large) && small == Keep(large, KeySet(small))
    requires small != []
    ensures var s := small[1..];
      Distinct(s) && KeySet(s) <= KeySet(small) && s == Keep(large, KeySet(s))
  {
    PopFront(small);
    KeepTwice(large, KeySet(small), KeySet(small) - {small[0].0});
    assert KeySet(small) * (KeySet(small) - {small[0].0}) == KeySet(small[1..]);
  }

  /** Both evict their oldest items, which may be the same one. */
  lemma EvictBoth<K, V>(small: Items<K, V>, large: Items<K, V>)
    requires Distinct(small) && Distinct(large) && KeySet(small) <= KeySet(large) && small == Keep(large, KeySet(small))
    requires small != [] && large != []
    ensures var s, l := small[1..], large[1..];
      Distinct(s) && Distinct(l) && KeySet(s) <= KeySet(l) && s == Keep(l, KeySet(s))
  {
    var f := large[0].0;
    PopFront(small);
    PopFront(large);
    if f in KeySet(small) {
      assert small[0] == large[0];
      WithoutKeep(small, large, f);
    } else {
      OutsideKeep(small, large, f);
      EvictSmall(small, large[1..]);
    }
  }

  lemma MoveBoth<K, V>(c: nat, d: nat, small: Items<K, V>, large: Items<K, V>, key: K, value: V)
    requires Included(c, d, small, large) && key in KeySet(small)
    ensures Included(c, d, Without(small, key) + [(key, value)], Without(large, key) + [(key, value)])
  {
    WithoutKeep(small, large, key);
    WithoutOk(small, key);
    WithoutOk(large, key);
    AppendBoth(Without(small, key), Without(large, key), key, value);
  }

  lemma MoveLarge<K, V>(c: nat, d: nat, small: Items<K, V>, large: Items<K, V>, key: K, value: V)
    requires Included(c, d, small, large) && key in KeySet(large) && key !in KeySet(small)
    ensures Included(c, d, small, Without(large, key) + [(key, value)])
  {
    OutsideKeep(small, large, key);
    WithoutOk(large, key);
    AppendLarge(small, Without(large, key), key, value);
  }

  /** The larger cache has the key, the smaller one stores it anew. */
  lemma StoreInSmall<K, V>(c: nat, d: nat, small: Items<K, V>, large: Items<K, V>, key: K, value: V)
    requires Included(c, d, small, large) && key in KeySet(large) && key !in KeySet(small) && c > 0
    ensures Included(c, d, Step(c, small, Op.Store(key, value)), Step(d, large, Op.Store(key, value)))
  {
    OutsideKeep(small, large, key);
    WithoutOk(large, key);
    if |small| == c {
      EvictSmall(small, Without(large, key));
      AppendBoth(small[1..], Without(large, key), key, value);
    } else {
      AppendBoth(small, Without(large, key), key, value);
    }
  }

  /** Neither cache has the key. If the larger one is full, so is the smaller one. */
  lemma StoreInBoth<K, V>(c: nat, d: nat, small: Items<K, V>, large: Items<K, V>, key: K, value: V)
    requires Included(c, d, small, large) && key !in KeySet(large) && c > 0
    ensures Included(c, d, Step(c, small, Op.Store(key, value)), Step(d, large, Op.Store(key, value)))
  {
    if |large| == d {
      EvictBoth(small, large);
      PopFront(large);
      AppendBoth(small[1..], large[1..], key, value);
    } else if |small| == c {
      EvictSmall(small, large);
      AppendBoth(small[1..], large, key, value);
    } else {
      AppendBoth(small, large, key, value);
    }
  }

  lemma StepIncluded<K, V>(c: nat, d: nat, small: Items<K, V>, large: Items<K, V>, op: Op<K, V>)
    requires Included(c, d, small, large) && c > 0
    ensures Included(c, d, Step(c, small, op), Step(d, large, op))
  {
    match op
    case Get(key) =>
      FindOk(small, key);
      FindOk(large, key);
      if key in KeySet(small) {
        HitInBoth(c, d, small, large, key);
        MoveBoth(c, d, small, large, key, Find(small, key).value);
      } else if key in KeySet(large) {
        MoveLarge(c, d, small, large, key, Find(large, key).value);
      }
    case Store(key, value) =>
      if key in KeySet(small) {
        MoveBoth(c, d, small, large, key, value);
      } else if key in KeySet(large) {
        StoreInSmall(c, d, small, large, key, value);
      } else {
        StoreInBoth(c, d, small, large, key, value);
      }
    case Invalidate(key) =>
      WithoutOk(small, key);
      WithoutOk(large, key);
      if key in KeySet(small) {
        WithoutKeep(small, large, key);
      } else {
        OutsideKeep(small, large, key);
        KeepAll(small, KeySet(small) - {key});
      }
    case InvalidateAll =>
  }

  /** On every trace the smaller cache stays included in the larger one, so that enlarging a cache never
      turns a hit into a miss, nor changes the value of a hit. */
  lemma {:induction false} EnlargingKeepsHits<K, V>(c: nat, d: nat, small: Items<K, V>, large: Items<K, V>, ops: seq<Op<K, V>>)
    requires 0 < c <= d && Included(c, d, small, large)
    ensures Included(c, d, Run(c, small, ops), Run(d, large, ops))
    ensures forall key :: Find(Run(c, small, ops), key).Some? ==>
      Find(Run(d, large, ops), key) == Find(Run(c, small, ops), key)
    decreases |ops|
  {
    if ops == [] {
      forall key | Find(small, key).Some?
        ensures Find(large, key) == Find(small, key)
      {
        HitInBoth(c, d, small, large, key);
      }
    } else {
      StepIncluded(c, d, small, large, ops[0]);
      EnlargingKeepsHits(c, d, Step(c, small, ops[0]), Step(d, large, ops[0]), ops[1..]);
    }
  }

  // ----- how long an item stays

  /** The item is among the last `n + 1`. */
  ghost predicate Recent<K, V>(s: Items<K, V>, x: (K, V), n: nat) {
    exists i :: 0 <= i < |s| && s[i] == x && |s| <= i + n + 1
  }

  lemma {:induction false} KeepShorter<K, V>(s: Items<K, V>, keys: set<K>)
    ensures |Keep(s, keys)| <= |s|
  {
    if s == [] {
    } else {
      KeepShorter(s[1..], keys);
    }
  }

  /** Leaving another key out brings the item no farther from the end. */
  lemma WithoutRecent<K, V>(s: Items<K, V>, x: (K, V), n: nat, key: K)
    requires Recent(s, x, n) && key != x.0
    ensures Recent(Without(s, key), x, n)
  {
    var i :| 0 <= i < |s| && s[i] == x && |s| <= i + n + 1;
    var keys := KeySet(s) - {key};
    var a, b := s[..i], s[i + 1..];
    assert s == a + ([x] + b);
    KeepConcat(a, [x] + b, keys);
    KeepConcat([x], b, keys);
    assert x.0 in keys && Keep([x], keys) == [x] by { assert [x][1..] == []; }
    KeepShorter(b, keys);
    assert Without(s, key)[|Keep(a, keys)|] == x;
  }

  lemma AppendRecent<K, V>(s: Items<K, V>, x: (K, V), n: nat, y: (K, V))
    requires Recent(s, x, n)
    ensures Recent(s + [y], x, n + 1)
  {
    var i :| 0 <= i < |s| && s[i] == x && |s| <= i + n + 1;
    assert (s + [y])[i] == x;
  }

  /** The operation does not take the key away or give it another value. */
  predicate Spares<K(==), V>(op: Op<K, V>, key: K) {
    match op
    case Get(_) => true
    case Store(k, _) => k != key
    case Invalidate(k) => k != key
    case InvalidateAll => false
  }

  lemma StepRecent<K, V>(capacity: nat, s: Items<K, V>, x: (K, V), n: nat, op: Op<K, V>)
    requires Fits(capacity, s) && Recent(s, x, n) && n + 1 < capacity && Spares(op, x.0)
    ensures Recent(Step(capacity, s, op), x, n + 1)
  {
    var i :| 0 <= i < |s| && s[i] == x && |s| <= i + n + 1;
    match op
    case Get(key) =>
      FindOk(s, key);
      if key == x.0 {
        assert (Without(s, key) + [x])[|Without(s, key)|] == x;
      } else if key in KeySet(s) {
        WithoutRecent(s, x, n, key);
        AppendRecent(Without(s, key), x, n, (key, Find(s, key).value));
      }
    case Store(key, value) =>
      if key in KeySet(s) {
        WithoutRecent(s, x, n, key);
        AppendRecent(Without(s, key), x, n, (key, value));
      } else {
        AppendRecent(s, x, n, (key, value));
        if |s| == capacity {
          assert s[1..][i - 1] == x;
          AppendRecent(s[1..], x, n, (key, value));
        }
      }
    case Invalidate(key) => WithoutRecent(s, x, n, key);
  }

  lemma {:induction false} RunRecent<K, V>(capacity: nat, s: Items<K, V>, x: (K, V), n: nat, ops: seq<Op<K, V>>)
    requires Fits(capacity, s) && Recent(s, x, n) && n + |ops| < capacity
    requires forall i :: 0 <= i < |ops| ==> Spares(ops[i], x.0)
    ensures Find(Run(capacity, s, ops), x.0) == Some(x.1)
    decreases |ops|
  {
    if ops == [] {
      FindOk(s, x.0);
    } else {
      StepRecent(capacity, s, x, n, ops[0]);
      StepFits(capacity, s, ops[0]);
      RunRecent(capacity, Step(capacity, s, ops[0]), x, n + 1, ops[1..]);
    }
  }

  /** An item that was just stored or read survives any fewer than `capacity` operations that do not touch it. */
  lemma UsedSurvives<K, V>(capacity: nat, s: Items<K, V>, op: Op<K, V>, ops: seq<Op<K, V>>)
    requires Fits(capacity, s) && |ops| < capacity
    requires op.Store? || (op.Get? && Find(s, op.key).Some?)
    requires forall i :: 0 <= i < |ops| ==> Spares(ops[i], op.key)
    ensures Find(Run(capacity, Step(capacity, s, op), ops), op.key) ==
      if op.Store? then Some(op.value) else Find(s, op.key)
  {
    var t := Step(capacity, s, op);
    var x := (op.key, if op.Store? then op.value else Find(s, op.key).value);
    assert t[|t| - 1] == x;
    StepFits(capacity, s, op);
    RunRecent(capacity, t, x, 0, ops);
  }

  // ----- the object

  /** A list cell. `place` is what an iterator to the cell is: it stays the same while cells come and go
      elsewhere. */
  datatype Cell<K> = Cell(place: nat, key: K)

  datatype Entry<V> = Entry(value: V, place: nat)

  function Position<K>(cells: seq<Cell<K>>, place: nat): (i: nat)
    ensures i <= |cells| && (i < |cells| ==> cells[i].place == place)
    ensures forall j :: 0 <= j < i ==> cells[j].place != place
  {
    if cells == [] || cells[0].place == place then 0 else 1 + Position(cells[1..], place)
  }

  /** `list::erase` at an iterator. */
  function Erase<K>(cells: seq<Cell<K>>, place: nat): seq<Cell<K>> {
    var i := Position(cells, place);
    if i < |cells| then cells[..i] + cells[i + 1..] else cells
  }

  ghost predicate NoRepeats<K>(cells: seq<Cell<K>>) {
    forall i, j :: 0 <= i < j < |cells| ==> cells[i].place != cells[j].place
  }

  /** Every cell is where the map says that its key is. */
  ghost predicate CellsMapped<K, V>(cells: seq<Cell<K>>, cache: map<K, Entry<V>>) {
    forall i :: 0 <= i < |cells| ==> cells[i].key in cache && cache[cells[i].key].place == cells[i].place
  }

  /** Every key of the map has the cell that its iterator points to. */
  ghost predicate KeysListed<K, V>(cells: seq<Cell<K>>, cache: map<K, Entry<V>>) {
    forall k :: k in cache ==> Cell(cache[k].place, k) in cells
  }

  ghost predicate Linked<K, V>(cells: seq<Cell<K>>, cache: map<K, Entry<V>>) {
    NoRepeats(cells) && CellsMapped(cells, cache) && KeysListed(cells, cache)
  }

  ghost function ItemsOf<K, V>(cells: seq<Cell<K>>, cache: map<K, Entry<V>>): (s: Items<K, V>)
    requires CellsMapped(cells, cache)
    ensures |s| == |cells| && forall i :: 0 <= i < |s| ==> s[i] == (cells[i].key, cache[cells[i].key].value)
  {
    seq(|cells|, i requires 0 <= i < |cells| => (cells[i].key, cache[cells[i].key].value))
  }

  lemma ItemsDistinct<K, V>(cells: seq<Cell<K>>, cache: map<K, Entry<V>>)
    requires Linked(cells, cache)
    ensures Distinct(ItemsOf(cells, cache)) && KeySet(ItemsOf(cells, cache)) == cache.Keys
  {
    var s := ItemsOf(cells, cache);
    forall k | k in cache
      ensures k in KeySet(s)
    {
      var i :| 0 <= i < |cells| && cells[i] == Cell(cache[k].place, k);
      assert s[i].0 == k;
    }
  }

  lemma EraseAt<K>(cells: seq<Cell<K>>, i: nat)
    requires NoRepeats(cells) && i < |cells|
    ensures Erase(cells, cells[i].place) == Others(cells, i)
  {
    assert Position(cells, cells[i].place) == i;
  }

  lemma KeySetParts<K, V>(a: Items<K, V>, x: (K, V), b: Items<K, V>)
    requires Distinct(a + [x] + b)
    ensures KeySet(a) <= KeySet(a + [x] + b) - {x.0} && KeySet(b) <= KeySet(a + [x] + b) - {x.0}
  {
    var s := a + [x] + b;
    assert s[|a|] == x;
    forall i | 0 <= i < |a|
      ensures a[i].0 in KeySet(s) - {x.0}
    {
      assert s[i] == a[i];
    }
    forall i | 0 <= i < |b|
      ensures b[i].0 in KeySet(s) - {x.0}
    {
      assert s[|a| + 1 + i] == b[i];
    }
  }

  lemma KeepSplit<K, V>(a: Items<K, V>, x: (K, V), b: Items<K, V>)
    requires Distinct(a + [x] + b)
    ensures Without(a + [x] + b, x.0) == a + b
  {
    var K := KeySet(a + [x] + b) - {x.0};
    KeepConcat(a + [x], b, K);
    KeepConcat(a, [x], K);
    assert [x][1..] == [];
    KeySetParts(a, x, b);
    KeepAll(a, K);
    KeepAll(b, K);
  }

  /** Taking a key off the list and out of the map leaves its item out. */
  lemma Unlink<K, V>(cells: seq<Cell<K>>, cache: map<K, Entry<V>>, key: K)
    requires Linked(cells, cache) && key in cache
    ensures var rest := Erase(cells, cache[key].place);
      && Linked(rest, cache - {key}) && |rest| == |cells| - 1 && (forall c :: c in rest ==> c in cells)
      && ItemsOf(rest, cache - {key}) == Without(ItemsOf(cells, cache), key)
  {
    var i :| 0 <= i < |cells| && cells[i] == Cell(cache[key].place, key);
    EraseAt(cells, i);
    UnlinkAt(cells, cache, i);
    ItemsDistinct(cells, cache);
    WithoutAt(ItemsOf(cells, cache), i);
  }

  lemma WithoutAt<K, V>(s: Items<K, V>, i: nat)
    requires Distinct(s) && i < |s|
    ensures Without(s, s[i].0) == s[..i] + s[i + 1..]
  {
    assert s == s[..i] + [s[i]] + s[i + 1..];
    KeepSplit(s[..i], s[i], s[i + 1..]);
  }

  /** The cells but the `i`-th. */
  function Others<K>(cells: seq<Cell<K>>, i: nat): (rest: seq<Cell<K>>)
    requires i < |cells|
    ensures |rest| == |cells| - 1
    ensures forall j :: 0 <= j < |rest| ==> rest[j] == cells[if j < i then j else j + 1]
  {
    cells[..i] + cells[i + 1..]
  }

  lemma OthersMapped<K, V>(cells: seq<Cell<K>>, cache: map<K, Entry<V>>, i: nat)
    requires NoRepeats(cells) && CellsMapped(cells, cache) && i < |cells|
    ensures NoRepeats(Others(cells, i)) && CellsMapped(Others(cells, i), cache - {cells[i].key})
  {
    var rest := Others(cells, i);
    forall j | 0 <= j < |rest|
      ensures rest[j].key != cells[i].key
    {
      assert rest[j].place != cells[i].place;
    }
  }

  lemma OthersListed<K, V>(cells: seq<Cell<K>>, cache: map<K, Entry<V>>, i: nat)
    requires KeysListed(cells, cache) && i < |cells|
    ensures KeysListed(Others(cells, i), cache - {cells[i].key})
  {
    var rest := Others(cells, i);
    forall k | k in cache - {cells[i].key}
      ensures Cell(cache[k].place, k) in rest
    {
      var j :| 0 <= j < |cells| && cells[j] == Cell(cache[k].place, k);
      assert rest[if j < i then j else j - 1] == cells[j];
    }
  }

  lemma UnlinkAt<K, V>(cells: seq<Cell<K>>, cache: map<K, Entry<V>>, i: nat)
    requires Linked(cells, cache) && i < |cells|
    ensures Linked(Others(cells, i), cache - {cells[i].key})
    ensures var s := ItemsOf(cells, cache);
      ItemsOf(Others(cells, i), cache - {cells[i].key}) == s[..i] + s[i + 1..]
  {
    OthersMapped(cells, cache, i);
    OthersListed(cells, cache, i);
  }

  lemma UnlinkFirst<K, V>(cells: seq<Cell<K>>, cache: map<K, Entry<V>>)
    requires Linked(cells, cache) && cells != []
    ensures Linked(cells[1..], cache - {cells[0].key})
    ensures ItemsOf(cells[1..], cache - {cells[0].key}) == ItemsOf(cells, cache)[1..]
  {
    UnlinkAt(cells, cache, 0);
    var s := ItemsOf(cells, cache);
    assert Others(cells, 0) == cells[1..] && s[..0] + s[0 + 1..] == s[1..];
  }

  /** A new key goes to the end of the list and into the map, with an iterator to its cell. */
  lemma Link<K, V>(cells: seq<Cell<K>>, cache: map<K, Entry<V>>, key: K, value: V, place: nat)
    requires Linked(cells, cache) && key !in cache && forall c :: c in cells ==> c.place != place
    ensures var cells', cache' := cells + [Cell(place, key)], cache[key := Entry(value, place)];
      Linked(cells', cache') && ItemsOf(cells', cache') == ItemsOf(cells, cache) + [(key, value)]
  {
    var cells', cache' := cells + [Cell(place, key)], cache[key := Entry(value, place)];
    forall i | 0 <= i < |cells|
      ensures cells'[i] == cells[i] && cells[i].place != place && cells[i].key != key
    {
      assert cells[i] in cells;
    }
    forall k | k in cache'
      ensures Cell(cache'[k].place, k) in cells'
    {
      if k == key {
        assert cells'[|cells|] == Cell(place, key);
      } else {
        var i :| 0 <= i < |cells| && cells[i] == Cell(cache[k].place, k);
        assert cells'[i] == cells[i];
      }
    }
  }

  class LRUCache<K(==, !new), V> {
    const capacity: nat
    var cache: map<K, Entry<V>>
    var keys: seq<Cell<K>>
    /** Places of cells are handed out in this order and never reused. */
    var nextPlace: nat

    ghost predicate Valid()
      reads this
    {
      Linked(keys, cache) && |keys| <= capacity && forall c :: c in keys ==> c.place < nextPlace
    }

    ghost function Abs(): Items<K, V>
      reads this
      requires Valid()
    {
      ItemsOf(keys, cache)
    }

    /** What is stored under a key. */
    ghost function At(key: K): Option<V>
      reads this
    {
      if key in cache then Some(cache[key].value) else None
    }

    constructor (capacity: nat)
      ensures Valid() && Abs() == [] && this.capacity == capacity && forall key :: At(key) == None
    {
      this.capacity := capacity;
      cache := map[];
      keys := [];
      nextPlace := 0;
    }

    method Get(key: K) returns (r: Option<V>)
      requires Valid()
      modifies this
      ensures Valid() && Abs() == Step(capacity, old(Abs()), Op.Get(key))
      ensures r == Find(old(Abs()), key) == At(key)
      ensures forall k :: At(k) == old(At(k))
    {
      FindInCache(key);
      if key !in cache {
        return None;
      }
      r := Some(cache[key].value);
      MoveToEnd(key, cache[key].value);
    }

    lemma FindInCache(key: K)
      requires Valid()
      ensures Find(Abs(), key) == At(key)
      ensures key in KeySet(Abs()) <==> key in cache
    {
      ItemsDistinct(keys, cache);
      FindOk(Abs(), key);
      if key in cache {
        var i :| 0 <= i < |keys| && keys[i] == Cell(cache[key].place, key);
        assert Abs()[i] == (key, cache[key].value);
      }
    }

    /** The cell of a key is erased through its iterator, and the key gets a new cell at the end. */
    method MoveToEnd(key: K, value: V)
      requires Valid() && key in cache
      modifies this
      ensures Valid() && Abs() == Without(old(Abs()), key) + [(key, value)]
      ensures forall k :: At(k) == if k == key then Some(value) else old(At(k))
    {
      ghost var rest := cache - {key};
      Unlink(keys, cache, key);
      keys := Erase(keys, cache[key].place);
      Link(keys, rest, key, value, nextPlace);
      keys := keys + [Cell(nextPlace, key)];
      assert rest[key := Entry(value, nextPlace)] == cache[key := Entry(value, nextPlace)];
      cache := cache[key := Entry(value, nextPlace)];
      nextPlace := nextPlace + 1;
    }

    /** With capacity zero the source would pop an empty list here. */
    method Store(key: K, value: V)
      requires Valid() && capacity > 0
      modifies this
      ensures Valid() && Abs() == Step(capacity, old(Abs()), Op.Store(key, value))
      ensures At(key) == Some(value)
      ensures forall k :: k != key ==> At(k) == None || At(k) == old(At(k))
    {
      FindInCache(key);
      if key in cache {
        MoveToEnd(key, value);
        return;
      }
      CacheSize();
      if |cache| == capacity {
        Evict();
      }
      Append(key, value);
    }

    /** The oldest key goes. */
    method Evict()
      requires Valid() && keys != []
      modifies this
      ensures Valid() && Abs() == old(Abs())[1..] && |keys| == old(|keys|) - 1
      ensures forall k :: At(k) == if k == old(keys[0].key) then None else old(At(k))
    {
      UnlinkFirst(keys, cache);
      cache := cache - {keys[0].key};
      keys := keys[1..];
    }

    method Append(key: K, value: V)
      requires Valid() && key !in cache && |keys| < capacity
      modifies this
      ensures Valid() && Abs() == old(Abs()) + [(key, value)]
      ensures forall k :: At(k) == if k == key then Some(value) else old(At(k))
    {
      Link(keys, cache, key, value, nextPlace);
      keys := keys + [Cell(nextPlace, key)];
      cache := cache[key := Entry(value, nextPlace)];
      nextPlace := nextPlace + 1;
    }

    lemma CacheSize()
      requires Valid()
      ensures |cache| == |keys| == |Abs()|
    {
      ItemsDistinct(keys, cache);
      KeySetSize(Abs());
    }

    method Invalidate(key: K)
      requires Valid()
      modifies this
      ensures Valid() && Abs() == Step(capacity, old(Abs()), Op.Invalidate(key))
    {
      FindInCache(key);
      if key !in cache {
        KeepAll(Abs(), KeySet(Abs()) - {key});
        return;
      }
      Unlink(keys, cache, key);
      keys := Erase(keys, cache[key].place);
      cache := cache - {key};
    }

    method InvalidateAll()
      modifies this
      ensures Valid() && Abs() == [] && cache == map[]
    {
      cache := map[];
      keys := [];
    }
  }
}
