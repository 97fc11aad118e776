/** What replaying the log does to the records of one table (engine/src/engine.cc,
    engine/src/store/vector_store.cc). */
module Replay {
  import opened Ranking
  import opened LogEntries
  import opened StoredRecords

  type Op = Entry<real>

  predicate IsWrite(e: Op) {
    e.Insert? || e.Remove?
  }

  /** Whether `ApplyWALEntry` reports success on an existing table. The log of a live table holds no
      drop: dropping deletes the log. */
  predicate Succeeds(dim: nat, store: Records, e: Op) {
    match e
    case Insert(id, vector, _) => id !in store && |vector| == dim
    case Remove(id) => id in store
    case _ => false
  }

  /** The effect of one entry on the records; a failed one has none. */
  function Step(dim: nat, store: Records, e: Op): Records {
    if !Succeeds(dim, store, e) then store
    else
      match e
      case Insert(id, vector, content) => store[id := Data(id, vector, content)]
      case Remove(id) => store - {id}
      case _ => store
  }

  /** How an operation changes the number of records. */
  lemma StepSize(dim: nat, store: Records, e: Op)
    ensures |Step(dim, store, e)| ==
      |store| + (if Succeeds(dim, store, e) && e.Insert? then 1 else 0)
        - (if Succeeds(dim, store, e) && e.Remove? then 1 else 0)
  {
    var after := Step(dim, store, e);
    assert |after| == |after.Keys| && |store| == |store.Keys|;
    if Succeeds(dim, store, e) {
      if e.Insert? {
        assert after.Keys == store.Keys + {e.id};
      } else {
        assert store.Keys == after.Keys + {e.id};
      }
    }
  }

  function Play(dim: nat, store: Records, log: seq<Op>): Records
    decreases |log|
  {
    if log == [] then store else Play(dim, Step(dim, store, log[0]), log[1..])
  }

  lemma {:induction false} PlayConcat(dim: nat, store: Records, a: seq<Op>, b: seq<Op>)
    ensures Play(dim, store, a + b) == Play(dim, Play(dim, store, a), b)
    decreases |a|
  {
    if a == [] {
      assert a + b == b;
    } else {
      assert (a + b)[0] == a[0] && (a + b)[1..] == a[1..] + b;
      PlayConcat(dim, Step(dim, store, a[0]), a[1..], b);
    }
  }

  lemma PlayOne(dim: nat, store: Records, e: Op)
    ensures Play(dim, store, [e]) == Step(dim, store, e)
  {
    assert [e][1..] == [];
    assert Play(dim, Step(dim, store, e), []) == Step(dim, store, e);
  }

  // ----- replaying one id

  /** The record of one id, if any. */
  function At(store: Records, id: Id): Option<Data> {
    if id in store then Some(store[id]) else None
  }

  function StepAt(dim: nat, o: Option<Data>, id: Id, e: Op): Option<Data> {
    match e
    case Insert(i, vector, content) =>
      if i == id && o == None && |vector| == dim then Some(Data(i, vector, content)) else o
    case Remove(i) => if i == id then None else o
    case _ => o
  }

  function PlayAt(dim: nat, o: Option<Data>, id: Id, log: seq<Op>): Option<Data>
    decreases |log|
  {
    if log == [] then o else PlayAt(dim, StepAt(dim, o, id, log[0]), id, log[1..])
  }

  lemma {:induction false} PlayIsPlayAt(dim: nat, store: Records, id: Id, log: seq<Op>)
    ensures At(Play(dim, store, log), id) == PlayAt(dim, At(store, id), id, log)
    decreases |log|
  {
    if log == [] {
    } else {
      PlayIsPlayAt(dim, Step(dim, store, log[0]), id, log[1..]);
    }
  }

  predicate Removes(log: seq<Op>, id: Id) {
    exists i :: 0 <= i < |log| && log[i] == Remove(id)
  }

  /** Once the id is removed, what it was before no longer matters. */
  lemma {:induction false} RemovalForgets(dim: nat, o: Option<Data>, o': Option<Data>, id: Id, log: seq<Op>)
    requires Removes(log, id)
    ensures PlayAt(dim, o, id, log) == PlayAt(dim, o', id, log)
    decreases |log|
  {
    if log[0] == Remove(id) {
    } else {
      var i :| 0 <= i < |log| && log[i] == Remove(id);
      assert log[1..][i - 1] == Remove(id);
      RemovalForgets(dim, StepAt(dim, o, id, log[0]), StepAt(dim, o', id, log[0]), id, log[1..]);
    }
  }

  lemma {:induction false} OnlyRemovalEmpties(dim: nat, o: Option<Data>, id: Id, log: seq<Op>)
    requires o.Some? && PlayAt(dim, o, id, log) == None
    ensures Removes(log, id)
    decreases |log|
  {
    if log[0] == Remove(id) {
      assert log[0] == Remove(id);
    } else {
      OnlyRemovalEmpties(dim, StepAt(dim, o, id, log[0]), id, log[1..]);
      var i :| 0 <= i < |log[1..]| && log[1..][i] == Remove(id);
      assert log[i + 1] == Remove(id);
    }
  }

  lemma {:induction false} ReplayAtOnce(dim: nat, o: Option<Data>, id: Id, part: seq<Op>, log: seq<Op>)
    requires part <= log
    ensures PlayAt(dim, PlayAt(dim, o, id, part), id, log) == PlayAt(dim, o, id, log)
    decreases |part|
  {
    if part == [] {
    } else {
      var e := log[0];
      var o1 := StepAt(dim, o, id, e);
      var mid := PlayAt(dim, o1, id, part[1..]);
      ReplayAtOnce(dim, o1, id, part[1..], log[1..]);
      if mid == None && o1.Some? {
        OnlyRemovalEmpties(dim, o1, id, part[1..]);
        var i :| 0 <= i < |part[1..]| && part[1..][i] == Remove(id);
        assert log[1..][i] == Remove(id);
        RemovalForgets(dim, StepAt(dim, mid, id, e), o1, id, log[1..]);
      }
    }
  }

  /** Replaying a log over the records reached by any part of it gives what replaying it once gives. */
  lemma ReplayIdempotent(dim: nat, store: Records, part: seq<Op>, log: seq<Op>)
    requires part <= log
    ensures Play(dim, Play(dim, store, part), log) == Play(dim, store, log)
  {
    var twice := Play(dim, Play(dim, store, part), log);
    var once := Play(dim, store, log);
    forall id
      ensures At(twice, id) == At(once, id)
    {
      PlayIsPlayAt(dim, store, id, part);
      PlayIsPlayAt(dim, Play(dim, store, part), id, log);
      PlayIsPlayAt(dim, store, id, log);
      ReplayAtOnce(dim, At(store, id), id, part, log);
    }
    SameEverywhere(twice, once);
  }

  lemma SameEverywhere(s: Records, t: Records)
    requires forall id :: At(s, id) == At(t, id)
    ensures s == t
  {
    assert forall id :: id in s <==> At(s, id).Some?;
    assert forall id :: id in t <==> At(t, id).Some?;
    assert s.Keys == t.Keys;
    assert forall id :: id in s ==> At(s, id) == Some(s[id]) && At(t, id) == Some(t[id]);
  }

  // ----- a log left over from an earlier table

  lemma {:induction false} UnremovedStays(dim: nat, o: Option<Data>, id: Id, log: seq<Op>)
    requires o.Some? && !Removes(log, id)
    ensures PlayAt(dim, o, id, log) == o
    decreases |log|
  {
    if log == [] {
    } else {
      assert log[0] != Remove(id);
      forall i | 0 <= i < |log[1..]|
        ensures log[1..][i] != Remove(id)
      {
        assert log[1..][i] == log[i + 1];
      }
      UnremovedStays(dim, o, id, log[1..]);
    }
  }

  lemma LeftoverAt(dim: nat, id: Id, left: seq<Op>, log: seq<Op>)
    requires PlayAt(dim, None, id, left) == None
    ensures var o := PlayAt(dim, None, id, log); PlayAt(dim, PlayAt(dim, o, id, left), id, log) == o
  {
    var o := PlayAt(dim, None, id, log);
    ReplayAtOnce(dim, None, id, log, log);
    if o.Some? && !Removes(left, id) {
      UnremovedStays(dim, o, id, left);
    } else if o.Some? {
      RemovalForgets(dim, o, None, id, left);
    }
  }

  /** A log whose first lines are left over from an earlier table is replayed over a snapshot of the new one.
      Those lines do no harm, whatever is done to the new table, if and only if the earlier one held nothing. */
  lemma LeftoverHarmlessIffEmpty(dim: nat, left: seq<Op>)
    ensures (forall log :: Play(dim, Play(dim, map[], log), left + log) == Play(dim, map[], log)) <==>
      Play(dim, map[], left) == map[]
  {
    if Play(dim, map[], left) == map[] {
      forall log
        ensures Play(dim, Play(dim, map[], log), left + log) == Play(dim, map[], log)
      {
        LeftoverReplayed(dim, left, log);
      }
    } else {
      assert Play(dim, map[], []) == map[];
      assert left + [] == left;
      assert Play(dim, Play(dim, map[], []), left + []) != Play(dim, map[], []);
    }
  }

  lemma LeftoverReplayed(dim: nat, left: seq<Op>, log: seq<Op>)
    requires Play(dim, map[], left) == map[]
    ensures Play(dim, Play(dim, map[], log), left + log) == Play(dim, map[], log)
  {
    var store := Play(dim, map[], log);
    PlayConcat(dim, store, left, log);
    forall id
      ensures At(Play(dim, Play(dim, store, left), log), id) == At(store, id)
    {
      PlayIsPlayAt(dim, map[], id, left);
      PlayIsPlayAt(dim, map[], id, log);
      PlayIsPlayAt(dim, store, id, left);
      PlayIsPlayAt(dim, Play(dim, store, left), id, log);
      LeftoverAt(dim, id, left, log);
    }
    SameEverywhere(Play(dim, Play(dim, store, left), log), store);
  }
}
