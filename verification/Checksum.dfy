/** The checksum of a table's records (engine/src/store/vector_store.cc). */
module Checksums {
  import opened Ranking
  import opened StoredRecords

  /** The rolling hash over a list of values, wrapping at 64 bits. */
  function Roll(checksum: nat, values: seq<nat>): nat
    decreases |values|
  {
    if values == [] then checksum else Roll((checksum * 71 + values[0]) % WORD, values[1..])
  }

  function Bytes(s: string): seq<nat> {
    seq(|s|, i requires 0 <= i < |s| => s[i] as int % 256)
  }

  ghost predicate Ascending(ids: seq<Id>) {
    forall i, j :: 0 <= i < j < |ids| ==> ids[i] < ids[j]
  }

  /** What is hashed for the records of these ids: each id, then the bytes of its content. */
  function Hashed(store: map<Id, Data>, ids: seq<Id>): seq<nat>
    requires forall i :: 0 <= i < |ids| ==> ids[i] in store
    decreases |ids|
  {
    if ids == [] then [] else [ids[0]] + Bytes(store[ids[0]].content) + Hashed(store, ids[1..])
  }

  /** The ids in ascending order. */
  ghost function IdList(ids: set<Id>): (r: seq<Id>)
    ensures Ascending(r) && Elems(r) == ids && forall i :: 0 <= i < |r| ==> r[i] in ids
  {
    var pairs := set a | a in ids :: Pair(0.0, a);
    var ranked := Rank(pairs);
    assert forall i :: 0 <= i < |ranked| ==> ranked[i] in Elems(ranked);
    var r := Ids(ranked);
    assert Elems(r) == ids by {
      forall a | a in ids
        ensures a in Elems(r)
      {
        assert Pair(0.0, a) in Elems(ranked);
        var i :| 0 <= i < |ranked| && ranked[i] == Pair(0.0, a);
        assert r[i] == a;
      }
    }
    r
  }

  ghost function Checksum(store: map<Id, Data>): nat {
    Roll(0, Hashed(store, IdList(store.Keys)))
  }

  lemma AscendingUnique(s: seq<Id>, t: seq<Id>)
    requires Ascending(s) && Ascending(t) && Elems(s) == Elems(t)
    ensures s == t
  {
    SortedUnique(AsPairs(s), AsPairs(t)) by {
      assert forall i :: 0 <= i < |s| ==> s[i] in Elems(s) && s[i] in Elems(t);
      assert forall i :: 0 <= i < |t| ==> t[i] in Elems(t) && t[i] in Elems(s);
    }
    assert |s| == |AsPairs(s)| == |AsPairs(t)| == |t|;
    assert forall i :: 0 <= i < |s| ==> AsPairs(s)[i].id == s[i];
  }

  function AsPairs(ids: seq<Id>): (r: seq<Pair>)
    ensures |r| == |ids| && forall i :: 0 <= i < |ids| ==> r[i] == Pair(0.0, ids[i])
  {
    seq(|ids|, i requires 0 <= i < |ids| => Pair(0.0, ids[i]))
  }

  lemma {:induction false} SameHashed(s: map<Id, Data>, t: map<Id, Data>, ids: seq<Id>)
    requires forall i :: 0 <= i < |ids| ==> ids[i] in s && ids[i] in t && s[ids[i]].content == t[ids[i]].content
    ensures Hashed(s, ids) == Hashed(t, ids)
    decreases |ids|
  {
    if ids == [] {
    } else {
      SameHashed(s, t, ids[1..]);
    }
  }

  /** The checksum depends on the ids and contents alone: stores with other vectors have the same one. */
  lemma ChecksumOfContents(s: map<Id, Data>, t: map<Id, Data>)
    requires s.Keys == t.Keys && forall a :: a in s ==> s[a].content == t[a].content
    ensures Checksum(s) == Checksum(t)
  {
    SameHashed(s, t, IdList(s.Keys));
  }

  method SortIds(ids: set<Id>) returns (r: seq<Id>)
    ensures Ascending(r) && Elems(r) == ids
  {
    r := [];
    var rest := ids;
    while rest != {}
      invariant Ascending(r) && Elems(r) == ids - rest && rest <= ids
    {
      var a :| a in rest;
      var i := 0;
      while i < |r| && r[i] < a
        invariant 0 <= i <= |r| && forall j :: 0 <= j < i ==> r[j] < a
      {
        i := i + 1;
      }
      assert i < |r| ==> r[i] in Elems(r);
      InsertAt(r, i, a);
      r := r[..i] + [a] + r[i..];
      rest := rest - {a};
    }
  }

  lemma InsertAt(r: seq<Id>, i: nat, a: Id)
    requires Ascending(r) && i <= |r| && (forall j :: 0 <= j < i ==> r[j] < a) && (i < |r| ==> a < r[i])
    ensures Ascending(r[..i] + [a] + r[i..]) && Elems(r[..i] + [a] + r[i..]) == Elems(r) + {a}
  {
    assert r == r[..i] + r[i..];
  }

  method ChecksumOf(store: map<Id, Data>) returns (checksum: nat)
    ensures checksum == Checksum(store)
  {
    var ids := SortIds(store.Keys);
    AscendingUnique(ids, IdList(store.Keys));
    checksum := HashRecords(store, ids);
  }

  method HashRecords(store: map<Id, Data>, ids: seq<Id>) returns (checksum: nat)
    requires forall i :: 0 <= i < |ids| ==> ids[i] in store
    ensures checksum == Roll(0, Hashed(store, ids))
  {
    ghost var total := Roll(0, Hashed(store, ids));
    checksum := 0;
    var i := 0;
    assert ids[0..] == ids;
    while i < |ids|
      invariant 0 <= i <= |ids|
      invariant Roll(checksum, Hashed(store, ids[i..])) == total
    {
      HashedFrom(store, ids, i, checksum);
      var next := RollBytes((checksum * 71 + ids[i]) % WORD, store[ids[i]].content);
      assert Roll(next, Hashed(store, ids[i + 1..])) == total;
      i, checksum := i + 1, next;
    }
  }

  method RollBytes(start: nat, content: string) returns (checksum: nat)
    ensures checksum == Roll(start, Bytes(content))
  {
    checksum := start;
    var j := 0;
    ghost var bytes := Bytes(content);
    assert bytes[0..] == bytes;
    while j < |content|
      invariant 0 <= j <= |content|
      invariant Roll(checksum, bytes[j..]) == Roll(start, bytes)
    {
      assert bytes[j..][0] == bytes[j] && bytes[j..][1..] == bytes[j + 1..];
      checksum := (checksum * 71 + content[j] as int % 256) % WORD;
      j := j + 1;
    }
  }

  lemma {:induction false} RollConcat(checksum: nat, a: seq<nat>, b: seq<nat>)
    ensures Roll(checksum, a + b) == Roll(Roll(checksum, a), b)
    decreases |a|
  {
    if a == [] {
      assert a + b == b;
    } else {
      assert (a + b)[0] == a[0] && (a + b)[1..] == a[1..] + b;
      RollConcat((checksum * 71 + a[0]) % WORD, a[1..], b);
    }
  }

  lemma HashedFrom(store: map<Id, Data>, ids: seq<Id>, i: nat, checksum: nat)
    requires i < |ids| && forall j :: 0 <= j < |ids| ==> ids[j] in store
    ensures Roll(checksum, Hashed(store, ids[i..])) ==
      Roll(Roll((checksum * 71 + ids[i]) % WORD, Bytes(store[ids[i]].content)), Hashed(store, ids[i + 1..]))
  {
    var head := [ids[i]] + Bytes(store[ids[i]].content);
    var later := Hashed(store, ids[i + 1..]);
    assert ids[i..][1..] == ids[i + 1..];
    assert Hashed(store, ids[i..]) == head + later;
    RollConcat(checksum, head, later);
    assert head[1..] == Bytes(store[ids[i]].content);
  }

  // ----- what the checksum is

  lemma ListLast(ids: set<Id>, a: Id)
    requires forall b :: b in ids ==> b < a
    ensures IdList(ids + {a}) == IdList(ids) + [a]
  {
    AscendingUnique(IdList(ids + {a}), IdList(ids) + [a]);
  }

  lemma {:induction false} HashedLast(store: map<Id, Data>, ids: seq<Id>, a: Id)
    requires a in store && forall i :: 0 <= i < |ids| ==> ids[i] in store
    ensures Hashed(store, ids + [a]) == Hashed(store, ids) + ([a] + Bytes(store[a].content))
    decreases |ids|
  {
    if ids == [] {
      assert [] + [a] == [a] && [a][1..] == [];
    } else {
      assert (ids + [a])[0] == ids[0] && (ids + [a])[1..] == ids[1..] + [a];
      HashedLast(store, ids[1..], a);
    }
  }

  /** The records before the one with the largest id, and then that one. */
  lemma SumWithLast(store: map<Id, Data>, rest: map<Id, Data>, a: Id)
    requires a in store && rest == store - {a} && forall b :: b in rest ==> b < a
    ensures Checksum(store) == Roll(Checksum(rest), [a] + Bytes(store[a].content))
  {
    assert store.Keys == rest.Keys + {a};
    ListLast(rest.Keys, a);
    HashedLast(store, IdList(rest.Keys), a);
    SameHashed(store, rest, IdList(rest.Keys));
    RollConcat(0, Hashed(rest, IdList(rest.Keys)), [a] + Bytes(store[a].content));
  }

  lemma ChecksumOfNone()
    ensures Checksum(map[]) == 0
  {
    var none: map<Id, Data> := map[];
    AscendingUnique(IdList(none.Keys), []);
  }

  lemma ChecksumOfLargest(store: map<Id, Data>, d: Data)
    requires d.id !in store && (forall b :: b in store ==> b < d.id) && d.content == ""
    ensures Checksum(store[d.id := d]) == (Checksum(store) * 71 + d.id) % WORD
  {
    Last(store, d);
    assert [d.id] + Bytes("") == [d.id];
    RollOne(Checksum(store), d.id);
  }

  lemma ChecksumOfLonger(store: map<Id, Data>, d: Data, longer: Data, c: char)
    requires d.id !in store && (forall b :: b in store ==> b < d.id)
    requires longer.id == d.id && longer.content == d.content + [c]
    ensures Checksum(store[d.id := longer]) == (Checksum(store[d.id := d]) * 71 + c as int % 256) % WORD
  {
    Last(store, d);
    Last(store, longer);
    OneByteMore(Checksum(store), d.id, d.content, c);
  }

  /** The three equations that fix the checksum of every store: an empty one has none; a record with a new largest id
      and no content adds its id; and one more character of the content of the largest id adds its byte. */
  lemma ChecksumEquations(store: map<Id, Data>, d: Data, c: char)
    requires d.id !in store && forall b :: b in store ==> b < d.id
    ensures Checksum(map[]) == 0
    ensures Checksum(store[d.id := d.(content := "")]) == (Checksum(store) * 71 + d.id) % WORD
    ensures Checksum(store[d.id := d.(content := d.content + [c])]) ==
      (Checksum(store[d.id := d]) * 71 + c as int % 256) % WORD
  {
    ChecksumOfNone();
    ChecksumOfLargest(store, d.(content := ""));
    ChecksumOfLonger(store, d, d.(content := d.content + [c]), c);
  }

  lemma OneByteMore(checksum: nat, id: Id, content: string, c: char)
    ensures Roll(checksum, [id] + Bytes(content + [c])) ==
      (Roll(checksum, [id] + Bytes(content)) * 71 + c as int % 256) % WORD
  {
    var head := [id] + Bytes(content);
    assert [id] + Bytes(content + [c]) == head + [c as int % 256];
    RollConcat(checksum, head, [c as int % 256]);
    RollOne(Roll(checksum, head), c as int % 256);
  }

  lemma Last(store: map<Id, Data>, d: Data)
    requires d.id !in store && forall b :: b in store ==> b < d.id
    ensures Checksum(store[d.id := d]) == Roll(Checksum(store), [d.id] + Bytes(d.content))
  {
    var more := store[d.id := d];
    assert more - {d.id} == store;
    SumWithLast(more, store, d.id);
  }

  lemma RollOne(checksum: nat, value: nat)
    ensures Roll(checksum, [value]) == (checksum * 71 + value) % WORD
  {
    assert [value][1..] == [];
  }
}
