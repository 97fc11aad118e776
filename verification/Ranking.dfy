/** Ids, vectors, and the `std::pair<float, Id>` heaps that both indexes search with.

    A distance is a `real`: only the order of distances matters, so rounding and NaN are not modelled.
    Every heap of the source holds distinct pairs, so a heap is its pairs in ascending order: a
    min-heap tops its first pair, a max-heap its last one. */
module Ranking {
  type Id = nat

  /** How many values a 64-bit word has. */
  const WORD: nat := 0x1_0000_0000_0000_0000

  /** One more than the largest 32-bit `int`. */
  const INT: nat := 0x8000_0000

  type Vector = seq<real>

  datatype Option<+T> = None | Some(value: T)

  datatype Pair = Pair(dist: real, id: Id)

  /** The lexicographic order of `std::pair`. */
  predicate Less(a: Pair, b: Pair) {
    a.dist < b.dist || (a.dist == b.dist && a.id < b.id)
  }

  predicate Sorted(s: seq<Pair>) {
    forall i, j :: 0 <= i < j < |s| ==> Less(s[i], s[j])
  }

  ghost function Elems<T>(s: seq<T>): set<T> {
    set x | x in s
  }

  function Ids(s: seq<Pair>): (ids: seq<Id>)
    ensures |ids| == |s|
    ensures forall i :: 0 <= i < |s| ==> ids[i] == s[i].id
  {
    seq(|s|, i requires 0 <= i < |s| => s[i].id)
  }

  function Min(a: nat, b: nat): nat {
    if a < b then a else b
  }

  function Take<T>(s: seq<T>, k: nat): seq<T> {
    if |s| <= k then s else s[..k]
  }

  lemma SortedConcat(s: seq<Pair>, t: seq<Pair>)
    requires Sorted(s) && Sorted(t)
    requires forall a, b :: a in Elems(s) && b in Elems(t) ==> Less(a, b)
    ensures Sorted(s + t) && Elems(s + t) == Elems(s) + Elems(t)
  {
    forall i, j | 0 <= i < j < |s + t|
      ensures Less((s + t)[i], (s + t)[j])
    {
      if i < |s| <= j {
        assert s[i] in Elems(s) && t[j - |s|] in Elems(t);
      }
    }
  }

  /** `priority_queue::emplace`. */
  function Push(s: seq<Pair>, p: Pair): (r: seq<Pair>)
    requires Sorted(s) && p !in s
    ensures Sorted(r) && Elems(r) == Elems(s) + {p}
    ensures |r| == |s| + 1
  {
    if s == [] then [p]
    else if Less(p, s[0]) then
      SortedConcat([p], s);
      [p] + s
    else
      SortedTail(s);
      var rest := Push(s[1..], p);
      SortedConcat([s[0]], rest);
      [s[0]] + rest
  }

  lemma {:induction false} RankExists(P: set<Pair>) returns (r: seq<Pair>)
    ensures Sorted(r) && Elems(r) == P && |r| == |P|
  {
    if P == {} {
      r := [];
    } else {
      var p :| p in P;
      r := RankExists(P - {p});
      assert p !in Elems(r);
      r := Push(r, p);
    }
  }

  /** The pairs of a set in ascending order. */
  ghost function Rank(P: set<Pair>): (r: seq<Pair>)
    ensures Sorted(r) && Elems(r) == P && |r| == |P|
  {
    assert exists r :: Sorted(r) && Elems(r) == P && |r| == |P| by {
      var r := RankExists(P);
    }
    var r :| Sorted(r) && Elems(r) == P && |r| == |P|;
    r
  }

  ghost predicate IsFirst(p: Pair, P: set<Pair>) {
    p in P && forall q :: q in P ==> q == p || Less(p, q)
  }

  ghost predicate IsLast(p: Pair, P: set<Pair>) {
    p in P && forall q :: q in P ==> q == p || Less(q, p)
  }

  lemma EndsExist(P: set<Pair>)
    requires P != {}
    ensures (exists p :: IsFirst(p, P)) && (exists p :: IsLast(p, P))
  {
    var r := Rank(P);
    assert forall q :: q in P ==> q in Elems(r);
    assert r[0] in Elems(r) && r[|r| - 1] in Elems(r);
    assert IsFirst(r[0], P) && IsLast(r[|r| - 1], P);
  }

  /** What a min-heap that holds these pairs tops. */
  ghost function First(P: set<Pair>): (p: Pair)
    requires P != {}
    ensures IsFirst(p, P)
  {
    EndsExist(P);
    var p :| IsFirst(p, P);
    p
  }

  /** What a max-heap that holds these pairs tops. */
  ghost function Last(P: set<Pair>): (p: Pair)
    requires P != {}
    ensures IsLast(p, P)
  {
    EndsExist(P);
    var p :| IsLast(p, P);
    p
  }

  lemma {:induction false} SortedUnique(s: seq<Pair>, t: seq<Pair>)
    requires Sorted(s) && Sorted(t) && Elems(s) == Elems(t)
    ensures s == t
  {
    if s == [] {
      if t != [] {
        HeadIn(t);
      }
    } else {
      assert s[0] in Elems(t) && t != [];
      assert t[0] in Elems(s);
      assert s[0] == t[0];
      SortedTail(s);
      SortedTail(t);
      SortedUnique(s[1..], t[1..]);
    }
  }

  lemma HeadIn<T>(s: seq<T>)
    requires s != []
    ensures s[0] in Elems(s)
  {}

  lemma SortedTail(s: seq<Pair>)
    requires Sorted(s) && s != []
    ensures Sorted(s[1..]) && s[0] !in s[1..] && Elems(s[1..]) == Elems(s) - {s[0]}
  {
    assert s == [s[0]] + s[1..];
  }

  lemma SortedSize(s: seq<Pair>)
    requires Sorted(s)
    ensures |Elems(s)| == |s|
  {
    SortedUnique(s, Rank(Elems(s)));
  }

  lemma SortedFront(s: seq<Pair>, k: nat)
    requires Sorted(s)
    ensures Sorted(Take(s, k)) && Elems(Take(s, k)) <= Elems(s)
    ensures k < |s| ==> Elems(Take(s, k)) + Elems(s[k..]) == Elems(s) && Elems(Take(s, k)) !! Elems(s[k..])
  {
    if k < |s| {
      assert s == s[..k] + s[k..];
    }
  }

  /** `r` lists, in ascending order, the `min(k, |P|)` least pairs of `P`. */
  ghost predicate Least(r: seq<Pair>, P: set<Pair>, k: nat) {
    && Sorted(r)
    && Elems(r) <= P
    && |r| == Min(k, |P|)
    && forall p, t :: p in P - Elems(r) && t in Elems(r) ==> Less(t, p)
  }

  /** A list that was not cut short holds the whole set. */
  lemma LeastAll(r: seq<Pair>, P: set<Pair>, k: nat)
    requires Least(r, P, k) && |P| <= k
    ensures Elems(r) == P
  {
    SortedSize(r);
    SubsetSize(Elems(r), P);
  }

  lemma SubsetSize<T>(a: set<T>, b: set<T>)
    requires a <= b
    ensures |a| <= |b|
    ensures |a| == |b| ==> a == b
  {
    assert b == a + (b - a);
  }

  /** There is only one such list. */
  lemma LeastUnique(r: seq<Pair>, P: set<Pair>, k: nat)
    requires Least(r, P, k)
    ensures r == Take(Rank(P), k)
  {
    if |P| <= k {
      LeastAll(r, P, k);
      SortedUnique(r, Rank(P));
    } else {
      LeastPrefix(r, P, k);
    }
  }

  lemma LeastPrefix(r: seq<Pair>, P: set<Pair>, k: nat)
    requires Least(r, P, k)
    ensures r <= Rank(P)
  {
    SplitUnique(r, Rank(P - Elems(r)), Rank(P), P);
  }

  lemma SplitUnique(r: seq<Pair>, rest: seq<Pair>, all: seq<Pair>, P: set<Pair>)
    requires Sorted(r) && Sorted(rest) && Sorted(all)
    requires Elems(r) <= P && Elems(rest) == P - Elems(r) && Elems(all) == P
    requires forall p, t :: p in P - Elems(r) && t in Elems(r) ==> Less(t, p)
    ensures r <= all
  {
    SortedConcat(r, rest);
    SortedUnique(r + rest, all);
  }

  lemma TakeRankLeast(P: set<Pair>, k: nat)
    ensures Least(Take(Rank(P), k), P, k)
  {
    var s := Rank(P);
    SortedFront(s, k);
    forall p, t | p in P - Elems(Take(s, k)) && t in Elems(Take(s, k))
      ensures Less(t, p)
    {
      assert p in Elems(s);
      InFrontLess(s, k, t, p);
    }
  }

  /** One round of a bounded max-heap: push, then pop the top when the heap is over `k`. */
  lemma BoundedPush(P: set<Pair>, p: Pair, k: nat)
    requires p !in P
    ensures p !in Take(Rank(P), k) && Sorted(Take(Rank(P), k))
    ensures Take(Push(Take(Rank(P), k), p), k) == Take(Rank(P + {p}), k)
  {
    TakeRankLeast(P, k);
    var h := Take(Rank(P), k);
    assert p !in Elems(h);
    BoundedPushLeast(h, P, p, k);
    LeastUnique(Take(Push(h, p), k), P + {p}, k);
  }

  lemma BoundedPushLeast(h: seq<Pair>, P: set<Pair>, p: Pair, k: nat)
    requires p !in P && Least(h, P, k) && p !in h
    ensures Least(Take(Push(h, p), k), P + {p}, k)
  {
    var h1 := Push(h, p);
    var r := Take(h1, k);
    SortedFront(h1, k);
    assert |P + {p}| == |P| + 1;
    forall x, t | x in P + {p} - Elems(r) && t in Elems(r)
      ensures Less(t, x)
    {
      assert t in Elems(h1);
      if x in Elems(h1) {
        InFrontLess(h1, k, t, x);
      } else if t == p {
        PushedBefore(h, P, p, k, x);
      }
    }
  }

  /** If the pushed pair stays, the heap has overflowed, and its evicted top is between that pair and every one
      left out before. */
  lemma PushedBefore(h: seq<Pair>, P: set<Pair>, p: Pair, k: nat, x: Pair)
    requires p !in P && Least(h, P, k) && p !in h && p in Take(Push(h, p), k) && x in P && x !in Elems(h)
    ensures Less(p, x)
  {
    var h1 := Push(h, p);
    SortedFront(h1, k);
    if |P| <= k { LeastAll(h, P, k); }
    var top := h1[k];
    assert top in Elems(h1) && top in h1[k..];
    InFrontLess(h1, k, p, top);
    assert Less(top, x);
  }

  lemma InFrontLess(s: seq<Pair>, k: nat, t: Pair, x: Pair)
    requires Sorted(s) && x in s && t in Take(s, k) && x !in Take(s, k)
    ensures Less(t, x)
  {
    assert s == s[..k] + s[k..];
    assert x in s[k..];
  }

  /** Empties a max-heap into a list and reverses it: the ids in ascending order of their pairs. */
  method Drain(heap: seq<Pair>) returns (nearest: seq<Id>)
    ensures nearest == Ids(heap)
  {
    var rest := heap;
    nearest := [];
    while rest != []
      invariant rest <= heap
      invariant |nearest| == |heap| - |rest|
      invariant forall i :: 0 <= i < |nearest| ==> nearest[i] == heap[|heap| - 1 - i].id
    {
      nearest := nearest + [rest[|rest| - 1].id];
      rest := rest[..|rest| - 1];
    }
    nearest := seq(|nearest|, i requires 0 <= i < |nearest| => nearest[|nearest| - 1 - i]);
  }
}
