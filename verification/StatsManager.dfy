/** The counters and flags of one table (engine/src/stats/stats_manager.cc), and what `Cleanup` does with
    them (engine/src/engine.cc). */
module StatsManagers {
  import opened Ranking

  /** Subtraction of two `uint64_t` values. */
  function Sub64(a: nat, b: nat): nat {
    if a >= b then a - b else (a - b) % WORD
  }

  /** An `int` as the `uint64_t` that it is stored in: a negative one wraps. */
  function Widen(value: int): nat
    requires 0 - INT <= value < INT
  {
    value % WORD
  }

  /** A size as the `int` that it is passed as. */
  function Narrow(size: nat): (value: int)
    ensures 0 - INT <= value < INT
    ensures size < INT ==> value == size
  {
    (size + INT) % (2 * INT) - INT
  }

  datatype Stats = Stats(vectors: nat, deleted: nat, stale: nat)

  /** The share of stale vectors that `Cleanup` compares with the threshold. */
  function Ratio(stats: Stats): real {
    var total := Sub64(stats.vectors + stats.stale, stats.deleted);
    if total > 0 then stats.stale as real / total as real else 0.0
  }

  /** What `Cleanup` does to the counters. */
  function Cleaned(stats: Stats, threshold: real): Stats {
    Stats(Sub64(stats.vectors, stats.deleted), 0, if Ratio(stats) > threshold then 0 else stats.stale)
  }

  /** With balanced counters the vector count becomes the number of live vectors, and the stale count is kept exactly
      when it is at most the threshold's share of live and stale ones. */
  lemma CleanedMeaning(stats: Stats, threshold: real, live: nat)
    requires stats.vectors == live + stats.deleted
    ensures var r := Cleaned(stats, threshold);
      && r.vectors == live && r.deleted == 0
      && r.stale == if stats.stale as real <= threshold * (live + stats.stale) as real then stats.stale else 0
  {
    var total := live + stats.stale;
    if total > 0 {
      var t := total as real;
      assert Ratio(stats) == stats.stale as real / t;
      ShareAbove(stats.stale as real, t, threshold);
    }
  }

  lemma ShareAbove(part: real, total: real, threshold: real)
    requires total > 0.0
    ensures part / total > threshold <==> part > threshold * total
  {
    var q := part / total;
    assert q * total == part;
    if q > threshold {
      assert q * total > threshold * total;
    } else {
      assert q * total <= threshold * total;
    }
  }

  datatype StatType = Vector | Deleted | Stale

  function WithCounter(stats: Stats, t: StatType, value: nat): Stats {
    match t
    case Vector => stats.(vectors := value)
    case Deleted => stats.(deleted := value)
    case Stale => stats.(stale := value)
  }

  class StatsManager {
    var stats: Stats
    var modified: bool
    var removed: bool

    constructor ()
      ensures stats == Stats(0, 0, 0) && !modified && !removed
    {
      stats := Stats(0, 0, 0);
      modified := false;
      removed := false;
    }

    method Increment(t: StatType)
      modifies this`stats
      ensures stats == match t
        case Vector => old(stats).(vectors := old(stats).vectors + 1)
        case Deleted => old(stats).(deleted := old(stats).deleted + 1)
        case Stale => old(stats).(stale := old(stats).stale + 1)
    {
      match t {
        case Vector => stats := stats.(vectors := stats.vectors + 1);
        case Deleted => stats := stats.(deleted := stats.deleted + 1);
        case Stale => stats := stats.(stale := stats.stale + 1);
      }
    }

    /** The parameter is an `int`, the counters are `uint64_t`. */
    method Set(t: StatType, value: int)
      requires 0 - INT <= value < INT
      modifies this`stats
      ensures value >= 0 ==> stats == WithCounter(old(stats), t, value)
      ensures value < 0 ==> stats == WithCounter(old(stats), t, WORD + value)
    {
      match t {
        case Vector => stats := stats.(vectors := Widen(value));
        case Deleted => stats := stats.(deleted := Widen(value));
        case Stale => stats := stats.(stale := Widen(value));
      }
    }

    method Reset(t: StatType)
      modifies this`stats
      ensures stats == WithCounter(old(stats), t, 0)
    {
      Set(t, 0);
    }

    method AdjustForDeletions()
      modifies this`stats
      ensures stats == old(stats).(vectors := Sub64(old(stats).vectors, old(stats).deleted))
    {
      stats := stats.(vectors := Sub64(stats.vectors, stats.deleted));
    }

    method SetModifiedFlag(value: bool)
      modifies this`modified
      ensures modified == value
    {
      modified := value;
    }

    method SetRemovedFlag(value: bool)
      modifies this`removed
      ensures removed == value
    {
      removed := value;
    }
  }
}
