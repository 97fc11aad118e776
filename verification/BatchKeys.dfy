/** The cache key of a batch of search requests (engine/src/engine.cc). */
module BatchKeys {
  import opened Ranking

  datatype Request = Request(query: Vector, k: nat, param: nat)

  type Key = nat

  /** `mix` is the exclusive or of two `size_t` values, `float` is `std::hash<float>`. */
  datatype Hasher = Hasher(mix: (Key, Key) -> Key, float: real -> Key)

  /** The one law of exclusive or that is used. */
  ghost predicate Exchanges(h: Hasher) {
    forall a, b, c :: h.mix(h.mix(a, b), c) == h.mix(h.mix(a, c), b)
  }

  /** Every second component goes into the key. */
  function QueryKey(h: Hasher, query: Vector, hash: Key, i: nat): Key
    decreases |query| - i
  {
    if i < |query| then QueryKey(h, query, h.mix(hash, h.float(query[i])), i + 2) else hash
  }

  /** What one request adds to the key. */
  function RequestKey(h: Hasher, r: Request, hash: Key): Key {
    QueryKey(h, r.query, h.mix(h.mix(hash, r.k), r.param), 0)
  }

  function RequestsKey(h: Hasher, requests: seq<Request>, hash: Key): Key
    decreases |requests|
  {
    if requests == [] then hash else RequestsKey(h, requests[1..], RequestKey(h, requests[0], hash))
  }

  function BatchKey(h: Hasher, requests: seq<Request>): Key {
    RequestsKey(h, requests, |requests|)
  }

  method ComputeKey(h: Hasher, requests: seq<Request>) returns (hash: Key)
    ensures hash == BatchKey(h, requests)
  {
    hash := |requests|;
    var r := 0;
    assert requests[0..] == requests;
    while r < |requests|
      invariant 0 <= r <= |requests|
      invariant RequestsKey(h, requests[r..], hash) == BatchKey(h, requests)
    {
      var request := requests[r];
      assert requests[r..][0] == request && requests[r..][1..] == requests[r + 1..];
      hash := h.mix(hash, request.k);
      hash := h.mix(hash, request.param);
      ghost var target := QueryKey(h, request.query, hash, 0);
      var i := 0;
      while i < |request.query|
        invariant QueryKey(h, request.query, hash, i) == target
        decreases |request.query| - i
      {
        hash := h.mix(hash, h.float(request.query[i]));
        i := i + 2;
      }
      r := r + 1;
    }
  }

  /** Exchanging the number of hits and the search parameter of a request does not change the key. */
  lemma SwapSharesKey(h: Hasher, query: Vector, k: nat, param: nat)
    requires Exchanges(h)
    ensures BatchKey(h, [Request(query, k, param)]) == BatchKey(h, [Request(query, param, k)])
  {
    assert h.mix(h.mix(1, k), param) == h.mix(h.mix(1, param), k);
    assert [Request(query, k, param)][1..] == [] && [Request(query, param, k)][1..] == [];
  }

  lemma {:induction false} EvenComponents(h: Hasher, q: Vector, q': Vector, hash: Key, i: nat)
    requires |q| == |q'| && i % 2 == 0 && forall j :: 0 <= j < |q| && j % 2 == 0 ==> q[j] == q'[j]
    ensures QueryKey(h, q, hash, i) == QueryKey(h, q', hash, i)
    decreases |q| - i
  {
    if i >= |q| {
    } else {
      EvenComponents(h, q, q', h.mix(hash, h.float(q[i])), i + 2);
    }
  }

  /** Nor does changing components at odd positions. */
  lemma OddComponentsShareKey(h: Hasher, q: Vector, q': Vector, k: nat, param: nat)
    requires |q| == |q'| && forall j :: 0 <= j < |q| && j % 2 == 0 ==> q[j] == q'[j]
    ensures BatchKey(h, [Request(q, k, param)]) == BatchKey(h, [Request(q', k, param)])
  {
    EvenComponents(h, q, q', h.mix(h.mix(1, k), param), 0);
    assert [Request(q, k, param)][1..] == [] && [Request(q', k, param)][1..] == [];
  }

  // ----- the order of the requests

  lemma {:induction false} MixPastQuery(h: Hasher, query: Vector, hash: Key, c: Key, i: nat)
    requires Exchanges(h)
    ensures QueryKey(h, query, h.mix(hash, c), i) == h.mix(QueryKey(h, query, hash, i), c)
    decreases |query| - i
  {
    if i >= |query| {
    } else {
      var x := h.float(query[i]);
      assert h.mix(h.mix(hash, c), x) == h.mix(h.mix(hash, x), c);
      MixPastQuery(h, query, h.mix(hash, x), c, i + 2);
    }
  }

  lemma MixPastRequest(h: Hasher, r: Request, hash: Key, c: Key)
    requires Exchanges(h)
    ensures RequestKey(h, r, h.mix(hash, c)) == h.mix(RequestKey(h, r, hash), c)
  {
    var k := h.mix(hash, r.k);
    assert h.mix(h.mix(hash, c), r.k) == h.mix(k, c);
    assert h.mix(h.mix(k, c), r.param) == h.mix(h.mix(k, r.param), c);
    MixPastQuery(h, r.query, h.mix(k, r.param), c, 0);
  }

  lemma {:induction false} QueryPastRequest(h: Hasher, r: Request, query: Vector, hash: Key, i: nat)
    requires Exchanges(h)
    ensures RequestKey(h, r, QueryKey(h, query, hash, i)) == QueryKey(h, query, RequestKey(h, r, hash), i)
    decreases |query| - i
  {
    if i >= |query| {
    } else {
      var x := h.float(query[i]);
      QueryPastRequest(h, r, query, h.mix(hash, x), i + 2);
      MixPastRequest(h, r, hash, x);
    }
  }

  /** What two requests add does not depend on their order. */
  lemma RequestsExchange(h: Hasher, a: Request, b: Request, hash: Key)
    requires Exchanges(h)
    ensures RequestKey(h, a, RequestKey(h, b, hash)) == RequestKey(h, b, RequestKey(h, a, hash))
  {
    QueryPastRequest(h, a, b.query, h.mix(h.mix(hash, b.k), b.param), 0);
    MixPastRequest(h, a, h.mix(hash, b.k), b.param);
    MixPastRequest(h, a, hash, b.k);
  }

  /** Any request of a batch may as well come first. */
  lemma {:induction false} RequestFirst(h: Hasher, requests: seq<Request>, i: nat, hash: Key)
    requires Exchanges(h) && i < |requests|
    ensures RequestsKey(h, requests, hash) ==
      RequestsKey(h, requests[..i] + requests[i + 1..], RequestKey(h, requests[i], hash))
    decreases i
  {
    var rest := requests[..i] + requests[i + 1..];
    if i == 0 {
      assert rest == requests[1..];
    } else {
      assert rest[0] == requests[0];
      assert rest[1..] == requests[1..][..i - 1] + requests[1..][i..];
      RequestFirst(h, requests[1..], i - 1, RequestKey(h, requests[0], hash));
      RequestsExchange(h, requests[i], requests[0], hash);
    }
  }

  lemma TakenOut<T>(s: seq<T>, i: nat)
    requires i < |s|
    ensures multiset(s[..i] + s[i + 1..]) == multiset(s) - multiset{s[i]}
  {
    assert s == s[..i] + [s[i]] + s[i + 1..];
  }

  lemma FirstOut<T>(s: seq<T>)
    requires s != []
    ensures multiset(s[1..]) == multiset(s) - multiset{s[0]}
  {
    assert s == [s[0]] + s[1..];
  }

  lemma PlaceOf<T>(s: seq<T>, x: T) returns (i: nat)
    requires x in multiset(s)
    ensures i < |s| && s[i] == x
  {
    i :| 0 <= i < |s| && s[i] == x;
  }

  lemma SameFirst(a: seq<Request>, b: seq<Request>) returns (i: nat)
    requires multiset(a) == multiset(b) && a != []
    ensures i < |b| && b[i] == a[0] && multiset(a[1..]) == multiset(b[..i] + b[i + 1..])
  {
    i := PlaceOf(b, a[0]);
    FirstOut(a);
    TakenOut(b, i);
  }

  lemma {:induction false} SameRequestsSameKey(h: Hasher, a: seq<Request>, b: seq<Request>, hash: Key)
    requires Exchanges(h) && multiset(a) == multiset(b)
    ensures RequestsKey(h, a, hash) == RequestsKey(h, b, hash)
    decreases |a|
  {
    if a == [] {
      assert |multiset(b)| == |b|;
    } else {
      var i := SameFirst(a, b);
      RequestFirst(h, b, i, hash);
      SameRequestsSameKey(h, a[1..], b[..i] + b[i + 1..], RequestKey(h, a[0], hash));
    }
  }

  /** Nor does reordering the requests of a batch, although the answers are listed in their order. */
  lemma ReorderingSharesKey(h: Hasher, a: seq<Request>, b: seq<Request>)
    requires Exchanges(h) && multiset(a) == multiset(b)
    ensures BatchKey(h, a) == BatchKey(h, b)
  {
    assert |multiset(a)| == |a| && |multiset(b)| == |b|;
    SameRequestsSameKey(h, a, b, |a|);
  }

  // ----- what does enter the key

  /** Exclusive or cancels on both sides. */
  ghost predicate Cancels(h: Hasher) {
    && (forall a, b, c :: h.mix(a, c) == h.mix(b, c) ==> a == b)
    && (forall a, b, c :: h.mix(c, a) == h.mix(c, b) ==> a == b)
  }

  lemma {:induction false} QueryKeepsApart(h: Hasher, query: Vector, x: Key, y: Key, i: nat)
    requires Cancels(h) && x != y
    ensures QueryKey(h, query, x, i) != QueryKey(h, query, y, i)
    decreases |query| - i
  {
    if i >= |query| {
    } else {
      var c := h.float(query[i]);
      assert h.mix(x, c) != h.mix(y, c);
      QueryKeepsApart(h, query, h.mix(x, c), h.mix(y, c), i + 2);
    }
  }

  lemma RequestKeepsApart(h: Hasher, r: Request, x: Key, y: Key)
    requires Cancels(h) && x != y
    ensures RequestKey(h, r, x) != RequestKey(h, r, y)
  {
    assert h.mix(x, r.k) != h.mix(y, r.k);
    assert h.mix(h.mix(x, r.k), r.param) != h.mix(h.mix(y, r.k), r.param);
    QueryKeepsApart(h, r.query, h.mix(h.mix(x, r.k), r.param), h.mix(h.mix(y, r.k), r.param), 0);
  }

  lemma {:induction false} RequestsKeepApart(h: Hasher, requests: seq<Request>, x: Key, y: Key)
    requires Cancels(h) && x != y
    ensures RequestsKey(h, requests, x) != RequestsKey(h, requests, y)
    decreases |requests|
  {
    if requests == [] {
    } else {
      RequestKeepsApart(h, requests[0], x, y);
      RequestsKeepApart(h, requests[1..], RequestKey(h, requests[0], x), RequestKey(h, requests[0], y));
    }
  }

  lemma {:induction false} RequestsConcat(h: Hasher, a: seq<Request>, b: seq<Request>, hash: Key)
    ensures RequestsKey(h, a + b, hash) == RequestsKey(h, b, RequestsKey(h, a, hash))
    decreases |a|
  {
    if a == [] {
      assert a + b == b;
    } else {
      assert (a + b)[0] == a[0] && (a + b)[1..] == a[1..] + b;
      RequestsConcat(h, a[1..], b, RequestKey(h, a[0], hash));
    }
  }

  lemma RequestNext(h: Hasher, r: Request, rest: seq<Request>, hash: Key)
    ensures RequestsKey(h, [r] + rest, hash) == RequestsKey(h, rest, RequestKey(h, r, hash))
  {
    assert ([r] + rest)[1..] == rest;
  }

  /** The same query but for one component at an even position, which has another hash. */
  predicate OtherComponent(h: Hasher, q: Vector, q': Vector) {
    exists j :: 0 <= j < |q| && j % 2 == 0 && |q'| == |q| && q' == q[j := q'[j]] && h.float(q[j]) != h.float(q'[j])
  }

  /** Two requests that differ in exactly one thing that enters the key. */
  predicate OneChange(h: Hasher, r: Request, r': Request) {
    || (r'.k != r.k && r' == r.(k := r'.k))
    || (r'.param != r.param && r' == r.(param := r'.param))
    || (OtherComponent(h, r.query, r'.query) && r' == r.(query := r'.query))
  }

  lemma {:induction false} ComponentEnters(h: Hasher, q: Vector, q': Vector, j: nat, hash: Key, i: nat)
    requires Cancels(h) && i % 2 == 0 && j % 2 == 0 && i <= j < |q| && |q'| == |q| && q' == q[j := q'[j]]
    requires h.float(q[j]) != h.float(q'[j])
    ensures QueryKey(h, q, hash, i) != QueryKey(h, q', hash, i)
    decreases j - i
  {
    if i == j {
      assert h.mix(hash, h.float(q[j])) != h.mix(hash, h.float(q'[j]));
      forall k | 0 <= k < |q| && k > j
        ensures q'[k] == q[k]
      {
      }
      SameFrom(h, q, q', h.mix(hash, h.float(q'[j])), j + 2);
      QueryKeepsApart(h, q, h.mix(hash, h.float(q[j])), h.mix(hash, h.float(q'[j])), j + 2);
    } else {
      ComponentEnters(h, q, q', j, h.mix(hash, h.float(q[i])), i + 2);
    }
  }

  lemma {:induction false} SameFrom(h: Hasher, q: Vector, q': Vector, hash: Key, i: nat)
    requires |q'| == |q| && forall k :: i <= k < |q| ==> q'[k] == q[k]
    ensures QueryKey(h, q, hash, i) == QueryKey(h, q', hash, i)
    decreases |q| - i
  {
    if i >= |q| {
    } else {
      SameFrom(h, q, q', h.mix(hash, h.float(q[i])), i + 2);
    }
  }

  lemma ChangeEnters(h: Hasher, r: Request, r': Request, hash: Key)
    requires Cancels(h) && OneChange(h, r, r')
    ensures RequestKey(h, r, hash) != RequestKey(h, r', hash)
  {
    var x, y := h.mix(h.mix(hash, r.k), r.param), h.mix(h.mix(hash, r'.k), r'.param);
    if r'.k != r.k || r'.param != r.param {
      assert x != y;
      QueryKeepsApart(h, r.query, x, y, 0);
    } else {
      var j :| 0 <= j < |r.query| && j % 2 == 0 && |r'.query| == |r.query| && r'.query == r.query[j := r'.query[j]] &&
        h.float(r.query[j]) != h.float(r'.query[j]);
      ComponentEnters(h, r.query, r'.query, j, x, 0);
    }
  }

  /** Two batches that differ in exactly one such thing of one request. */
  ghost predicate OneChangeApart(h: Hasher, a: seq<Request>, b: seq<Request>) {
    exists i :: 0 <= i < |a| && |a| == |b| && b == a[i := b[i]] && OneChange(h, a[i], b[i])
  }

  /** The number of hits, the search parameter and the components at even positions all enter the key: batches that
      differ in one of them have different keys. */
  lemma OneChangeOtherKey(h: Hasher, a: seq<Request>, b: seq<Request>)
    requires Cancels(h) && OneChangeApart(h, a, b)
    ensures BatchKey(h, a) != BatchKey(h, b)
  {
    var i :| 0 <= i < |a| && |a| == |b| && b == a[i := b[i]] && OneChange(h, a[i], b[i]);
    var hash := RequestsKey(h, a[..i], |a|);
    KeyAround(h, a, i, |a|);
    KeyAround(h, b, i, |a|);
    assert b[..i] == a[..i] && b[i + 1..] == a[i + 1..];
    ChangeEnters(h, a[i], b[i], hash);
    RequestsKeepApart(h, a[i + 1..], RequestKey(h, a[i], hash), RequestKey(h, b[i], hash));
  }

  lemma KeyAround(h: Hasher, a: seq<Request>, i: nat, hash: Key)
    requires i < |a|
    ensures RequestsKey(h, a, hash) ==
      RequestsKey(h, a[i + 1..], RequestKey(h, a[i], RequestsKey(h, a[..i], hash)))
  {
    assert a == a[..i] + ([a[i]] + a[i + 1..]);
    RequestsConcat(h, a[..i], [a[i]] + a[i + 1..], hash);
    RequestNext(h, a[i], a[i + 1..], RequestsKey(h, a[..i], hash));
  }

  // ----- a request asked twice

  /** What is mixed in twice is gone. */
  ghost predicate Undoes(h: Hasher) {
    forall a, b :: h.mix(h.mix(a, b), b) == a
  }

  lemma {:induction false} QueryTwice(h: Hasher, query: Vector, hash: Key, i: nat)
    requires Exchanges(h) && Undoes(h)
    ensures QueryKey(h, query, QueryKey(h, query, hash, i), i) == hash
    decreases |query| - i
  {
    if i >= |query| {
    } else {
      var x := h.float(query[i]);
      var once := QueryKey(h, query, hash, i + 2);
      MixPastQuery(h, query, hash, x, i + 2);
      assert h.mix(h.mix(once, x), x) == once;
      QueryTwice(h, query, hash, i + 2);
    }
  }

  lemma RequestTwice(h: Hasher, r: Request, hash: Key)
    requires Exchanges(h) && Undoes(h)
    ensures RequestKey(h, r, RequestKey(h, r, hash)) == hash
  {
    var once := QueryKey(h, r.query, hash, 0);
    MixPastQuery(h, r.query, h.mix(hash, r.k), r.param, 0);
    MixPastQuery(h, r.query, hash, r.k, 0);
    assert RequestKey(h, r, hash) == h.mix(h.mix(once, r.k), r.param);
    assert h.mix(h.mix(h.mix(once, r.k), r.param), r.k) == h.mix(h.mix(h.mix(once, r.k), r.k), r.param);
    assert h.mix(h.mix(h.mix(once, r.k), r.k), r.param) == h.mix(once, r.param);
    assert h.mix(h.mix(once, r.param), r.param) == once;
    QueryTwice(h, r.query, hash, 0);
  }

  /** A request that is asked twice leaves nothing in the key but its count, and the count does enter it. */
  lemma TwiceLeavesCount(h: Hasher, a: seq<Request>, r: Request)
    requires Exchanges(h) && Undoes(h) && Cancels(h)
    ensures BatchKey(h, a + [r, r]) == RequestsKey(h, a, |a| + 2) != BatchKey(h, a)
  {
    var hash := RequestsKey(h, a, |a| + 2);
    TwoMore(h, a, r);
    assert RequestKey(h, r, RequestKey(h, r, hash)) == hash by { RequestTwice(h, r, hash); }
    assert hash != RequestsKey(h, a, |a|) by { RequestsKeepApart(h, a, |a| + 2, |a|); }
  }

  lemma TwoMore(h: Hasher, a: seq<Request>, r: Request)
    ensures BatchKey(h, a + [r, r]) == RequestKey(h, r, RequestKey(h, r, RequestsKey(h, a, |a| + 2)))
  {
    var hash := RequestsKey(h, a, |a| + 2);
    RequestsConcat(h, a, [r, r], |a| + 2);
    assert [r, r] == [r] + ([r] + []);
    RequestNext(h, r, [r] + [], hash);
    RequestNext(h, r, [], RequestKey(h, r, hash));
  }
}
