/** The log file of one table as an object (engine/src/storage/persistence_manager.cc). */
module Persistence {
  import opened Ranking
  import opened LogEntries
  import opened WalText
  import opened WalRoundTrip

  lemma {:induction false} ShowLogSnoc<F>(codec: Codec<F>, log: seq<Entry<F>>, e: Entry<F>)
    ensures ShowLog(codec, log + [e]) == ShowLog(codec, log) + ShowEntry(codec, e) + "\n"
  {
    if log == [] {
      assert [] + [e] == [e] && [e][1..] == [];
    } else {
      var first := ShowEntry(codec, log[0]) + "\n";
      assert ShowLog(codec, log + [e]) == first + ShowLog(codec, log[1..] + [e]) by {
        assert (log + [e])[0] == log[0] && (log + [e])[1..] == log[1..] + [e];
      }
      ShowLogSnoc(codec, log[1..], e);
      Regrouped(first, ShowLog(codec, log[1..]), ShowEntry(codec, e), "\n");
    }
  }

  lemma Regrouped(a: string, b: string, c: string, d: string)
    ensures a + (b + c + d) == a + b + c + d
  {}

  lemma {:induction false} ShowVectorSnoc<F>(codec: Codec<F>, vector: seq<F>, i: nat)
    requires i < |vector|
    ensures ShowVector(codec, vector[..i + 1]) == ShowVector(codec, vector[..i]) + " " + codec.show(vector[i])
    decreases i
  {
    if i == 0 {
      assert vector[..1][1..] == [] && vector[..0] == [];
    } else {
      assert vector[..i + 1][1..] == vector[1..][..i] && vector[..i][1..] == vector[1..][..i - 1];
      ShowVectorSnoc(codec, vector[1..], i - 1);
    }
  }

  lemma FieldText(prefix: string, w: string, rest: string)
    ensures prefix + Field(w, rest) == prefix + " " + w + rest
  {}

  lemma InsertText(id: string, vector: string, content: string)
    ensures "insert" + " " + id + vector + " | " + content == "insert" + Field(id, vector + " | " + content)
  {
    var tail := vector + " | " + content;
    FieldText("insert", id, tail);
    assert "insert" + " " + id + vector + " | " + content == "insert" + " " + id + tail;
  }

  /** What the insertion's line is streamed from. */
  method InsertLine<F>(codec: Codec<F>, id: Id, vector: seq<F>, content: string) returns (line: string)
    ensures line == ShowEntry(codec, Insert(id, vector, content))
  {
    var head := "insert" + " " + ShowNat(id);
    var values := "";
    var i := 0;
    while i < |vector|
      invariant 0 <= i <= |vector|
      invariant values == ShowVector(codec, vector[..i])
    {
      ShowVectorSnoc(codec, vector, i);
      values := values + " " + codec.show(vector[i]);
      i := i + 1;
    }
    assert vector[..i] == vector;
    InsertText(ShowNat(id), values, content);
    line := head + values + " | " + content;
  }

  lemma FlatText<F>(codec: Codec<F>, config: TableConfig<F>)
    requires config.FlatTable?
    ensures "create" + " " + ShowInt(config.dim) + " " + ShowMetric(config.metric) + " " + ShowNat(config.cacheSize) ==
      ShowEntry(codec, Create(config))
  {
    var t1 := Field(ShowNat(config.cacheSize), "");
    var t2 := Field(ShowMetric(config.metric), t1);
    var p1 := "create" + " " + ShowInt(config.dim);
    var p2 := p1 + " " + ShowMetric(config.metric);
    FieldText("create", ShowInt(config.dim), t2);
    FieldText(p1, ShowMetric(config.metric), t1);
    FieldText(p2, ShowNat(config.cacheSize), "");
    assert p2 + " " + ShowNat(config.cacheSize) + "" == p2 + " " + ShowNat(config.cacheSize);
  }

  lemma HnswText<F>(codec: Codec<F>, config: TableConfig<F>)
    requires config.HnswTable?
    ensures "create" + " " + ShowInt(config.dim) + " " + ShowNat(config.m) + " " + ShowNat(config.m0) + " " +
      ShowNat(config.efConstruction) + " " + codec.show(config.ml) + " " + ShowMetric(config.metric) + " " +
      ShowNat(config.cacheSize) == ShowEntry(codec, Create(config))
  {
    var HnswTable(dim, m, m0, ef, ml, metric, cacheSize) := config;
    var t1 := Field(ShowNat(cacheSize), "");
    var t2 := Field(ShowMetric(metric), t1);
    var t3 := Field(codec.show(ml), t2);
    var t4 := Field(ShowNat(ef), t3);
    var t5 := Field(ShowNat(m0), t4);
    var t6 := Field(ShowNat(m), t5);
    var p1 := "create" + " " + ShowInt(dim);
    var p2 := p1 + " " + ShowNat(m);
    var p3 := p2 + " " + ShowNat(m0);
    var p4 := p3 + " " + ShowNat(ef);
    var p5 := p4 + " " + codec.show(ml);
    var p6 := p5 + " " + ShowMetric(metric);
    FieldText("create", ShowInt(dim), t6);
    FieldText(p1, ShowNat(m), t5);
    FieldText(p2, ShowNat(m0), t4);
    FieldText(p3, ShowNat(ef), t3);
    FieldText(p4, codec.show(ml), t2);
    FieldText(p5, ShowMetric(metric), t1);
    FieldText(p6, ShowNat(cacheSize), "");
    assert p6 + " " + ShowNat(cacheSize) + "" == p6 + " " + ShowNat(cacheSize);
  }

  /** One line off a text, with any entries already read before it. */
  lemma LineParsed<F>(codec: Codec<F>, hnsw: bool, s: string, done: seq<Option<Entry<F>>>)
      returns (later: seq<Option<Entry<F>>>)
    requires s != ""
    ensures later == ParseLog(codec, hnsw, AfterLine(s)) && |AfterLine(s)| < |s|
    ensures var e := ParseEntry(codec, hnsw, s[..LineSpan(s)]);
      && ParseLog(codec, hnsw, s) == [e] + later
      && done + ParseLog(codec, hnsw, s) == done + [e] + later
  {
    later := ParseLog(codec, hnsw, AfterLine(s));
  }

  /** The elements from `n` on. */
  function From<T>(s: seq<T>, n: nat): seq<T> {
    if n <= |s| then s[n..] else []
  }

  /** What is still to be delivered to a reader from line `offset` on that is at this line. */
  function Remaining<F>(codec: Codec<F>, hnsw: bool, offset: nat, currentLine: nat, rest: string)
      : seq<Option<Entry<F>>> {
    From(ParseLog(codec, hnsw, rest), if currentLine < offset then offset - currentLine else 0)
  }

  lemma LineSkipped<F>(codec: Codec<F>, hnsw: bool, offset: nat, currentLine: nat, rest: string)
    requires rest != "" && currentLine < offset
    ensures Remaining(codec, hnsw, offset, currentLine, rest) ==
      Remaining(codec, hnsw, offset, currentLine + 1, AfterLine(rest))
  {
    var later := LineParsed(codec, hnsw, rest, []);
    FromLater(ParseEntry(codec, hnsw, rest[..LineSpan(rest)]), later, offset - currentLine);
  }

  lemma FromLater<T>(x: T, later: seq<T>, n: nat)
    requires n > 0
    ensures From([x] + later, n) == From(later, n - 1)
  {}

  lemma LineTaken<F>(codec: Codec<F>, hnsw: bool, offset: nat, currentLine: nat, rest: string,
      entries: seq<Option<Entry<F>>>)
    requires rest != "" && offset <= currentLine
    ensures entries + Remaining(codec, hnsw, offset, currentLine, rest) ==
      entries + [ParseEntry(codec, hnsw, rest[..LineSpan(rest)])] +
      Remaining(codec, hnsw, offset, currentLine + 1, AfterLine(rest))
  {
    var _ := LineParsed(codec, hnsw, rest, entries);
  }

  /** Reading from an offset gives exactly the operations logged from there on. */
  lemma SuffixReads<F(!new)>(codec: Codec<F>, hnsw: bool, log: seq<Entry<F>>, offset: nat)
    requires CodecOk(codec)
    requires forall i :: 0 <= i < |log| ==> InRange(hnsw, log[i]) && Loggable(codec, log[i])
    ensures var r := From(ParseLog(codec, hnsw, ShowLog(codec, log)), offset);
      && |r| == (if offset <= |log| then |log| - offset else 0)
      && forall i :: 0 <= i < |r| ==> r[i] == Some(log[offset + i])
  {
    LogRoundTrip(codec, hnsw, log);
  }

  class VectorPersistenceManager<!F(==, !new)> {
    const codec: Codec<F>
    const hnsw: bool
    var wal: string
    /** The operations logged since the file was last empty. */
    ghost var logged: seq<Entry<F>>

    ghost predicate Valid()
      reads this
    {
      wal == ShowLog(codec, logged)
    }

    constructor (codec: Codec<F>, hnsw: bool)
      ensures Valid() && logged == [] && this.codec == codec && this.hnsw == hnsw
    {
      this.codec := codec;
      this.hnsw := hnsw;
      wal := "";
      logged := [];
    }

    method AppendInsert(id: Id, vector: seq<F>, content: string)
      requires Valid()
      modifies this
      ensures Valid() && logged == old(logged) + [Insert(id, vector, content)]
    {
      var line := InsertLine(codec, id, vector, content);
      ShowLogSnoc(codec, logged, Insert(id, vector, content));
      wal := wal + line + "\n";
      logged := logged + [Insert(id, vector, content)];
    }

    method AppendRemove(id: Id)
      requires Valid()
      modifies this
      ensures Valid() && logged == old(logged) + [Remove(id)]
    {
      var line := "remove" + " " + ShowNat(id);
      FieldText("remove", ShowNat(id), "");
      assert line + "" == line == ShowEntry(codec, Entry<F>.Remove(id));
      ShowLogSnoc(codec, logged, Entry<F>.Remove(id));
      wal := wal + line + "\n";
      logged := logged + [Remove(id)];
    }

    method AppendCreate(config: TableConfig<F>)
      requires Valid() && config.HnswTable? == hnsw
      modifies this
      ensures Valid() && logged == old(logged) + [Create(config)]
    {
      ghost var before := wal;
      ShowLogSnoc(codec, logged, Create(config));
      var line: string;
      match config {
        case HnswTable(dim, m, m0, ef, ml, metric, cacheSize) =>
          HnswText(codec, config);
          line := "create" + " " + ShowInt(dim) + " " + ShowNat(m) + " " + ShowNat(m0) + " " + ShowNat(ef) + " " +
            codec.show(ml) + " " + ShowMetric(metric) + " " + ShowNat(cacheSize);
        case FlatTable(dim, metric, cacheSize) =>
          FlatText(codec, config);
          line := "create" + " " + ShowInt(dim) + " " + ShowMetric(metric) + " " + ShowNat(cacheSize);
      }
      assert line == ShowEntry(codec, Create(config));
      wal := wal + line + "\n";
      logged := logged + [Create(config)];
    }

    method AppendDrop()
      requires Valid()
      modifies this
      ensures Valid() && logged == old(logged) + [Drop]
    {
      ShowLogSnoc(codec, logged, Entry<F>.Drop);
      wal := wal + "drop" + "\n";
      logged := logged + [Drop];
    }

    method ClearWAL()
      modifies this
      ensures Valid() && logged == []
    {
      wal := "";
      logged := [];
    }

    /** The entries that are handed to the callback, in order. */
    method ReplayWAL() returns (entries: seq<Option<Entry<F>>>)
      ensures entries == ParseLog(codec, hnsw, wal)
    {
      entries := [];
      var rest := wal;
      ghost var all, later := ParseLog(codec, hnsw, wal), ParseLog(codec, hnsw, wal);
      while rest != ""
        invariant later == ParseLog(codec, hnsw, rest) && entries + later == all
        decreases |rest|
      {
        var entry := ParseLine(rest[..LineSpan(rest)]);
        later := LineParsed(codec, hnsw, rest, entries);
        entries := entries + [entry];
        rest := AfterLine(rest);
      }
    }

    /** The entries from line `offset` on. */
    method SerializeWALEntries(offset: nat) returns (entries: seq<Option<Entry<F>>>)
      ensures entries == From(ParseLog(codec, hnsw, wal), offset)
    {
      entries := [];
      var rest := wal;
      var currentLine := 0;
      while rest != ""
        invariant entries + Remaining(codec, hnsw, offset, currentLine, rest) ==
          From(ParseLog(codec, hnsw, wal), offset)
        decreases |rest|
      {
        if currentLine < offset {
          LineSkipped(codec, hnsw, offset, currentLine, rest);
          currentLine := currentLine + 1;
          rest := AfterLine(rest);
          continue;
        }
        LineTaken(codec, hnsw, offset, currentLine, rest, entries);
        var entry := ParseLine(rest[..LineSpan(rest)]);
        entries := entries + [entry];
        rest := AfterLine(rest);
        currentLine := currentLine + 1;
      }
    }

    /** One line: the command decides which branch fills in the entry, which is an empty insertion at first. */
    method ParseLine(line: string) returns (entry: Option<Entry<F>>)
      ensures entry == ParseEntry(codec, hnsw, line)
    {
      var command := ReadWord(line);
      entry := Some(Insert(0, [], ""));
      if command.value == "insert" {
        var e := ParseInsertLine(command.rest);
        entry := Some(e);
      }
      if command.value == "remove" {
        var id := ReadNat(command.rest, WORD);
        entry := Some(Remove(id.value));
      }
      if command.value == "create" {
        entry := ParseCreateLine(command.rest);
      }
      if command.value == "drop" {
        entry := Some(Drop);
      }
    }

    /** The fields in order. Once an extraction has failed the stream stays bad, and what the program then
        puts into the entry is indeterminate. */
    method ParseCreateLine(s: string) returns (entry: Option<Entry<F>>)
      ensures entry == ParseCreate(codec, hnsw, s)
    {
      var good := true;
      var dim := ReadInt(s, INT);
      good := good && dim.ok;
      if hnsw {
        var m := ReadNat(dim.rest, WORD);
        good := good && m.ok;
        var m0 := ReadNat(m.rest, WORD);
        good := good && m0.ok;
        var efConstruction := ReadNat(m0.rest, WORD);
        good := good && efConstruction.ok;
        var (ml, rest) := ReadFloat(codec, efConstruction.rest);
        good := good && ml.Some?;
        var metric := ReadWord(rest);
        good := good && metric.ok;
        var cacheSize := ReadNat(metric.rest, WORD);
        good := good && cacheSize.ok;
        if good {
          return Some(Create(HnswTable(dim.value, m.value, m0.value, efConstruction.value, ml.value,
                                       if metric.value == "L2" then L2 else Cosine, cacheSize.value)));
        }
      } else {
        var metric := ReadWord(dim.rest);
        good := good && metric.ok;
        var cacheSize := ReadNat(metric.rest, WORD);
        good := good && cacheSize.ok;
        if good {
          return Some(Create(FlatTable(dim.value, if metric.value == "L2" then L2 else Cosine, cacheSize.value)));
        }
      }
      entry := None;
    }

    /** Everything after the command: the id, the components, and the delimiter before the content. */
    method ParseInsertLine(s: string) returns (entry: Entry<F>)
      ensures entry == ParseInsert(codec, s)
    {
      var id := ReadNat(s, WORD);
      var rest := id.rest;
      var vector: seq<F> := [];
      if id.ok {
        vector, rest := ReadComponents(rest);
      }
      var content := SkipSpace(rest);
      if "| " <= content {
        content := content[2..];
      }
      entry := Insert(id.value, vector, content);
    }

    /** Extracts floats until an extraction fails. */
    method ReadComponents(s: string) returns (vector: seq<F>, rest: string)
      ensures (vector, rest) == ReadVector(codec, s)
    {
      vector, rest := [], s;
      var (v, after) := ReadFloat(codec, rest);
      ghost var more, end := ReadVector(codec, s).0, ReadVector(codec, s).1;
      assert vector + more == more;
      while v.Some? && |after| < |rest|
        invariant (v, after) == ReadFloat(codec, rest) && (more, end) == ReadVector(codec, rest)
        invariant ReadVector(codec, s) == (vector + more, end)
        decreases |rest|
      {
        ghost var later := ReadVector(codec, after).0;
        ComponentRead(codec, rest, vector);
        vector, more := vector + [v.value], later;
        rest := after;
        var next := ReadFloat(codec, rest);
        v, after := next.0, next.1;
      }
      NoneRead(codec, rest);
      assert vector + [] == vector;
      rest := after;
    }
  }

  lemma ComponentRead<F>(codec: Codec<F>, s: string, done: seq<F>)
    requires ReadFloat(codec, s).0.Some? && |ReadFloat(codec, s).1| < |s|
    ensures var (v, after) := ReadFloat(codec, s);
      && ReadVector(codec, s) == ([v.value] + ReadVector(codec, after).0, ReadVector(codec, after).1)
      && done + ReadVector(codec, s).0 == (done + [v.value]) + ReadVector(codec, after).0
  {}

  lemma NoneRead<F>(codec: Codec<F>, s: string)
    requires ReadFloat(codec, s).0 == None || |ReadFloat(codec, s).1| >= |s|
    ensures ReadVector(codec, s) == ([], ReadFloat(codec, s).1)
  {}
}
