/** Printing a log and parsing it back: when the entries survive, and when they do not. */
module WalRoundTrip {
  import opened Ranking
  import opened LogEntries
  import opened WalText

  // ----- single extractions

  /** The text that follows a printed field. */
  predicate Ends(rest: string) {
    rest == "" || rest[0] == ' '
  }

  predicate Solid(w: string) {
    w != "" && forall i :: 0 <= i < |w| ==> !IsSpace(w[i])
  }

  lemma {:induction false} WordSpanOk(w: string, rest: string)
    requires (forall i :: 0 <= i < |w| ==> !IsSpace(w[i])) && Ends(rest)
    ensures WordSpan(w + rest) == |w|
  {
    if w == "" {
      assert w + rest == rest;
    } else {
      assert (w + rest)[1..] == w[1..] + rest;
      WordSpanOk(w[1..], rest);
    }
  }

  lemma SkipOne(w: string, rest: string)
    requires w != "" && !IsSpace(w[0])
    ensures SkipSpace(w + rest) == w + rest
    ensures SkipSpace(" " + w + rest) == w + rest
  {
    assert (" " + w + rest)[1..] == w + rest;
  }

  lemma ReadWordOk(w: string, rest: string)
    requires Solid(w) && Ends(rest)
    ensures ReadWord(w + rest) == Read(w, rest, true)
    ensures ReadWord(" " + w + rest) == Read(w, rest, true)
  {
    SkipOne(w, rest);
    WordSpanOk(w, rest);
    assert (w + rest)[..|w|] == w && (w + rest)[|w|..] == rest;
  }

  lemma {:induction false} DigitSpanOk(w: string, rest: string)
    requires (forall i :: 0 <= i < |w| ==> IsDigit(w[i])) && Ends(rest)
    ensures DigitSpan(w + rest) == |w|
  {
    if w == "" {
      assert w + rest == rest;
    } else {
      assert (w + rest)[1..] == w[1..] + rest;
      DigitSpanOk(w[1..], rest);
    }
  }

  lemma {:induction false} DigitsValueOk(n: nat)
    ensures DigitsValue(ShowNat(n)) == n
  {
    if n < 10 {
      assert ShowNat(n)[..0] == "";
    } else {
      DigitsValueOk(n / 10);
      assert ShowNat(n)[..|ShowNat(n)| - 1] == ShowNat(n / 10);
    }
  }

  lemma ReadNatOk(n: nat, rest: string, limit: nat)
    requires n < limit && Ends(rest)
    ensures ReadNat(ShowNat(n) + rest, limit) == Read(n, rest, true)
    ensures ReadNat(" " + ShowNat(n) + rest, limit) == Read(n, rest, true)
  {
    var w := ShowNat(n);
    SkipOne(w, rest);
    DigitSpanOk(w, rest);
    DigitsValueOk(n);
    assert (w + rest)[..|w|] == w && (w + rest)[|w|..] == rest;
  }

  /** A number that is too large gives the largest value, and the extraction fails. */
  lemma ReadNatTooLarge(n: nat, rest: string, limit: nat)
    requires 0 < limit <= n && Ends(rest)
    ensures ReadNat(ShowNat(n) + rest, limit) == Read(limit - 1, rest, false)
  {
    var w := ShowNat(n);
    SkipOne(w, rest);
    DigitSpanOk(w, rest);
    DigitsValueOk(n);
    assert (w + rest)[..|w|] == w && (w + rest)[|w|..] == rest;
  }

  /** A sign is taken, and a negative value wraps around. */
  lemma ReadNatSigned(sign: string, n: nat, rest: string, limit: nat)
    requires (sign == "+" || sign == "-") && 0 < n < limit && Ends(rest)
    ensures ReadNat(sign + ShowNat(n) + rest, limit) == Read(if sign == "+" then n else limit - n, rest, true)
  {
    var w := ShowNat(n);
    SignedText(sign, w, rest);
    DigitSpanOk(w, rest);
    DigitsValueOk(n);
    assert (w + rest)[..|w|] == w && (w + rest)[|w|..] == rest;
  }

  lemma SignedText(sign: string, w: string, rest: string)
    requires sign == "+" || sign == "-"
    ensures var s := sign + w + rest; SkipSpace(s) == s && s[0] == sign[0] && IsSign(s[0]) && s[1..] == w + rest
  {}

  /** Without a number the value is zero, and the extraction fails. */
  lemma ReadNatNone(s: string, limit: nat)
    requires limit > 0 && (s == "" || !(IsSpace(s[0]) || IsDigit(s[0]) || IsSign(s[0])))
    ensures ReadNat(s, limit) == Read(0, s, false)
  {}

  lemma ReadIntOk(n: int, rest: string, limit: nat)
    requires 0 - limit <= n < limit && Ends(rest)
    ensures ReadInt(" " + ShowInt(n) + rest, limit) == Read(n, rest, true)
  {
    if n < 0 {
      ReadNegativeOk(n, rest, limit);
    } else {
      SkipOne(ShowNat(n), rest);
      ReadNatOk(n, rest, limit);
    }
  }

  lemma ReadNegativeOk(n: int, rest: string, limit: nat)
    requires 0 - limit <= n < 0 && Ends(rest)
    ensures ReadInt(" " + ShowInt(n) + rest, limit) == Read(n, rest, true)
  {
    MinusShown(n, rest);
    ReadAfterMinus(" " + ShowInt(n) + rest, -n, rest, limit);
  }

  lemma MinusShown(n: int, rest: string)
    requires n < 0
    ensures var t := SkipSpace(" " + ShowInt(n) + rest);
      t != "" && t[0] == '-' && t[1..] == ShowNat(-n) + rest
  {
    SkipOne("-" + ShowNat(-n), rest);
  }

  lemma ReadAfterMinus(s: string, n: nat, rest: string, limit: nat)
    requires n <= limit && Ends(rest)
    requires SkipSpace(s) != "" && SkipSpace(s)[0] == '-' && SkipSpace(s)[1..] == ShowNat(n) + rest
    ensures limit > 0 ==> ReadInt(s, limit) == Read(0 - n, rest, true)
  {
    DigitSpanOk(ShowNat(n), rest);
    assert ReadNat(ShowNat(n) + rest, limit + 1) == Read(n, rest, true) by { ReadNatOk(n, rest, limit + 1); }
  }

  /** What follows a blank never joins a float. */
  lemma {:induction false} MantissaSpanOk(w: string, rest: string, m: Mantissa)
    requires Ends(rest)
    ensures MantissaSpan(w + rest, m) == MantissaSpan(w, m)
    decreases |w|
  {
    if w == "" {
      assert w + rest == rest;
    } else {
      var (n, m') := MantissaStep(w, m);
      assert MantissaStep(w + rest, m) == (n, m');
      if n > 0 {
        assert (w + rest)[n..] == w[n..] + rest;
        MantissaSpanOk(w[n..], rest, m');
      }
    }
  }

  lemma FloatSpanOk(w: string, rest: string)
    requires Ends(rest) && w != ""
    ensures FloatSpan(w + rest) == FloatSpan(w)
  {
    if IsSign(w[0]) {
      assert (w + rest)[1..] == w[1..] + rest;
      MantissaSpanOk(w[1..], rest, START);
    } else {
      MantissaSpanOk(w, rest, START);
    }
  }

  /** A printed float that reads as something leaves the rest untouched. */
  lemma ReadFloatOk<F(!new)>(codec: Codec<F>, v: F, rest: string)
    requires CodecOk(codec) && Ends(rest)
    ensures var (o, after) := ReadFloat(codec, " " + codec.show(v) + rest);
      && |after| <= |codec.show(v) + rest| && o == ReadBack(codec, v) && (o.Some? ==> after == rest)
  {
    assert PrintOk(codec, v);
    var w := codec.show(v);
    SkipOne(w, rest);
    FloatSpanOk(w, rest);
    var n := FloatSpan(w);
    assert (w + rest)[..n] == w[..n];
    if n == |w| {
      assert w[..n] == w && (w + rest)[n..] == rest;
    }
  }

  /** Being read as itself is what surviving means. */
  lemma SurvivesOk<F(!new)>(codec: Codec<F>, v: F)
    requires CodecOk(codec)
    ensures Survives(codec, v) <==> ReadBack(codec, v) == Some(v)
  {
    assert PrintOk(codec, v);
    var s := codec.show(v);
    assert FloatSpan(s) == |s| ==> s[..FloatSpan(s)] == s;
  }

  // ----- vectors

  predicate AllSurvive<F(==)>(codec: Codec<F>, vector: seq<F>) {
    forall i :: 0 <= i < |vector| ==> Survives(codec, vector[i])
  }

  lemma VectorEnds<F>(codec: Codec<F>, vector: seq<F>, tail: string)
    requires Ends(tail)
    ensures Ends(ShowVector(codec, vector) + tail)
  {}

  /** The components as they read back, up to the first that does not read. */
  function VectorBack<F>(codec: Codec<F>, vector: seq<F>): seq<F> {
    if vector == [] || ReadBack(codec, vector[0]) == None then []
    else [ReadBack(codec, vector[0]).value] + VectorBack(codec, vector[1..])
  }

  predicate AllRead<F>(codec: Codec<F>, vector: seq<F>) {
    forall i :: 0 <= i < |vector| ==> ReadBack(codec, vector[i]).Some?
  }

  /** Text that no float is read from. */
  predicate NoFloat(w: string) {
    w != "" && !IsSpace(w[0]) && FloatSpan(w) == 0
  }

  /** Floats are read until a word that does not start like one, or until one does not read. */
  lemma {:induction false} ReadVectorUntil<F(!new)>(codec: Codec<F>, vector: seq<F>, w: string)
    requires CodecOk(codec) && NoFloat(w)
    ensures var (read, rest) := ReadVector(codec, ShowVector(codec, vector) + (" " + w));
      read == VectorBack(codec, vector) && (AllRead(codec, vector) ==> rest == w)
    decreases |vector|
  {
    var tail := " " + w;
    if vector == [] {
      NoVector(codec, w);
      assert ShowVector(codec, vector) + tail == tail;
    } else {
      var v := vector[0];
      var rest := ShowVector(codec, vector[1..]) + tail;
      assert ShowVector(codec, vector) + tail == " " + codec.show(v) + rest;
      VectorEnds(codec, vector[1..], tail);
      ReadFloatOk(codec, v, rest);
      ReadVectorUntil(codec, vector[1..], w);
    }
  }

  /** In particular until the separator. */
  lemma ReadVectorOk<F(!new)>(codec: Codec<F>, vector: seq<F>, content: string)
    requires CodecOk(codec)
    ensures var (read, rest) := ReadVector(codec, ShowVector(codec, vector) + " | " + content);
      read == VectorBack(codec, vector) && (AllRead(codec, vector) ==> rest == "| " + content)
  {
    assert FloatSpan("| " + content) == 0;
    ReadVectorUntil(codec, vector, "| " + content);
    assert ShowVector(codec, vector) + " | " + content == ShowVector(codec, vector) + (" " + ("| " + content));
  }

  lemma NoVector<F(!new)>(codec: Codec<F>, w: string)
    requires CodecOk(codec) && NoFloat(w)
    ensures ReadVector(codec, " " + w) == ([], w)
  {
    SkipOne(w, "");
    assert w + "" == w && " " + w + "" == " " + w;
    assert w[..0] == "" && w[0..] == w;
  }

  /** An insertion's line without the separator: everything from the first word that is no float is the content. */
  lemma BareInsertion<F(!new)>(codec: Codec<F>, hnsw: bool, id: Id, vector: seq<F>, w: string)
    requires CodecOk(codec) && id < WORD && AllRead(codec, vector) && NoFloat(w) && !("| " <= w)
    ensures ParseEntry(codec, hnsw, "insert" + Field(ShowNat(id), ShowVector(codec, vector) + (" " + w))) ==
      Some(Insert(id, VectorBack(codec, vector), w))
  {
    var tail := ShowVector(codec, vector) + (" " + w);
    assert Ends(tail) by { VectorEnds(codec, vector, " " + w); }
    InsertWord(codec, hnsw, Field(ShowNat(id), tail));
    assert ParseInsert(codec, Field(ShowNat(id), tail)) == Insert(id, VectorBack(codec, vector), w) by {
      ReadNatOk(id, tail, WORD);
      ReadVectorUntil(codec, vector, w);
    }
  }

  lemma InsertWord<F>(codec: Codec<F>, hnsw: bool, rest: string)
    requires Ends(rest)
    ensures ParseEntry(codec, hnsw, "insert" + rest) == Some(ParseInsert(codec, rest))
  {
    ReadWordOk("insert", rest);
  }

  /** An insertion's line without an id: nothing is read but the rest as the content, for id 0. */
  lemma InsertionWithoutId<F(!new)>(codec: Codec<F>, hnsw: bool, w: string)
    requires w != "" && !(IsSpace(w[0]) || IsDigit(w[0]) || IsSign(w[0])) && !("| " <= w)
    ensures ParseEntry(codec, hnsw, "insert" + Field(w, "")) == Some(Insert(0, [], w))
  {
    InsertWord(codec, hnsw, Field(w, ""));
    SkipOne(w, "");
    assert w + "" == w;
    ReadNatNone(w, WORD);
  }

  lemma {:induction false} VectorBackOk<F(!new)>(codec: Codec<F>, vector: seq<F>)
    requires CodecOk(codec)
    ensures VectorBack(codec, vector) == vector <==> AllSurvive(codec, vector)
    ensures AllRead(codec, vector) ==> |VectorBack(codec, vector)| == |vector|
    ensures AllSurvive(codec, vector) ==> AllRead(codec, vector)
  {
    if vector == [] {
    } else {
      SurvivesOk(codec, vector[0]);
      VectorBackOk(codec, vector[1..]);
      assert vector == [vector[0]] + vector[1..];
    }
  }

  // ----- entries

  /** The numbers fit their C++ types, and a creation is of the kind that the log is for. */
  predicate InRange<F>(hnsw: bool, e: Entry<F>) {
    match e
    case Insert(id, _, _) => id < WORD
    case Remove(id) => id < WORD
    case Create(HnswTable(dim, m, m0, ef, _, _, cacheSize)) =>
      hnsw && 0 - INT <= dim < INT && m < WORD && m0 < WORD && ef < WORD && cacheSize < WORD
    case Create(FlatTable(dim, _, cacheSize)) => !hnsw && 0 - INT <= dim < INT && cacheSize < WORD
    case Drop => true
  }

  /** The content is any text, with separators and leading blanks; only the floats can be misread. */
  lemma ParseInsertOk<F(!new)>(codec: Codec<F>, hnsw: bool, e: Entry<F>)
    requires CodecOk(codec) && e.Insert? && e.id < WORD
    ensures var r := ParseEntry(codec, hnsw, ShowEntry(codec, e));
      && r.Some? && r.value.Insert? && r.value.id == e.id && r.value.vector == VectorBack(codec, e.vector)
      && (AllRead(codec, e.vector) ==> r.value.content == e.content)
  {
    var Insert(id, vector, content) := e;
    var tail := ShowVector(codec, vector) + " | " + content;
    assert Ends(tail) by {
      VectorEnds(codec, vector, " | " + content);
      assert tail == ShowVector(codec, vector) + (" | " + content);
    }
    ReadWordOk("insert", Field(ShowNat(id), tail));
    ReadNatOk(id, tail, WORD);
    ReadVectorOk(codec, vector, content);
    if AllRead(codec, vector) {
      SkipOne("| ", content);
      assert ("| " + content)[2..] == content;
    }
  }

  lemma ReadMetricOk(m: Metric, rest: string)
    requires Ends(rest)
    ensures ReadWord(Field(ShowMetric(m), rest)) == Read(ShowMetric(m), rest, true)
    ensures ParseMetric(ShowMetric(m)) == m
  {
    ReadWordOk(ShowMetric(m), rest);
  }

  lemma ParseFlatOk<F(!new)>(codec: Codec<F>, config: TableConfig<F>)
    requires config.FlatTable? && InRange(false, Create(config))
    ensures ParseFlat(ShowConfig(codec, config)) == Some(config)
  {
    var FlatTable(dim, metric, cacheSize) := config;
    var t1 := Field(ShowNat(cacheSize), "");
    var t2 := Field(ShowMetric(metric), t1);
    ReadIntOk(dim, t2, INT);
    ReadMetricOk(metric, t1);
    ReadNatOk(cacheSize, "", WORD);
  }

  /** A creation with the graph index reads back with its `ml` as that reads back. */
  lemma ParseHnswOk<F(!new)>(codec: Codec<F>, config: TableConfig<F>)
    requires CodecOk(codec) && config.HnswTable? && InRange(true, Create(config))
    ensures ParseHnsw(codec, ShowConfig(codec, config)) ==
      match ReadBack(codec, config.ml)
      case None => None
      case Some(ml) => Some(config.(ml := ml))
  {
    var HnswTable(dim, m, m0, ef, ml, metric, cacheSize) := config;
    var t1 := Field(ShowNat(cacheSize), "");
    var t2 := Field(ShowMetric(metric), t1);
    var t3 := Field(codec.show(ml), t2);
    var t4 := Field(ShowNat(ef), t3);
    var t5 := Field(ShowNat(m0), t4);
    var t6 := Field(ShowNat(m), t5);
    assert ReadInt(Field(ShowInt(dim), t6), INT) == Read(dim, t6, true) by { ReadIntOk(dim, t6, INT); }
    assert ReadNat(t6, WORD) == Read(m, t5, true) by { ReadNatOk(m, t5, WORD); }
    assert ReadNat(t5, WORD) == Read(m0, t4, true) by { ReadNatOk(m0, t4, WORD); }
    assert ReadNat(t4, WORD) == Read(ef, t3, true) by { ReadNatOk(ef, t3, WORD); }
    assert ReadFloat(codec, t3).0 == ReadBack(codec, ml) by { ReadFloatOk(codec, ml, t2); }
    if ReadBack(codec, ml).Some? {
      assert ReadFloat(codec, t3).1 == t2 by { ReadFloatOk(codec, ml, t2); }
      assert ReadWord(t2) == Read(ShowMetric(metric), t1, true) by { ReadMetricOk(metric, t1); }
      assert ParseMetric(ShowMetric(metric)) == metric;
      assert ReadNat(t1, WORD) == Read(cacheSize, "", true) by { ReadNatOk(cacheSize, "", WORD); }
    }
  }

  /** Every float of the entry prints and reads as itself. */
  predicate FloatsSurvive<F(==)>(codec: Codec<F>, e: Entry<F>) {
    match e
    case Insert(_, vector, _) => AllSurvive(codec, vector)
    case Create(HnswTable(_, _, _, _, ml, _, _)) => Survives(codec, ml)
    case _ => true
  }

  /** Every float of the entry reads back as some float, as all finite ones do. */
  predicate FloatsRead<F>(codec: Codec<F>, e: Entry<F>) {
    match e
    case Insert(_, vector, _) => AllRead(codec, vector)
    case Create(HnswTable(_, _, _, _, ml, _, _)) => ReadBack(codec, ml).Some?
    case _ => true
  }

  /** The entry with its floats as they read back. */
  function Reprinted<F>(codec: Codec<F>, e: Entry<F>): Entry<F> {
    match e
    case Insert(id, vector, content) => Insert(id, VectorBack(codec, vector), content)
    case Create(HnswTable(dim, m, m0, ef, ml, metric, cacheSize)) =>
      var back := ReadBack(codec, ml);
      Create(HnswTable(dim, m, m0, ef, if back.Some? then back.value else ml, metric, cacheSize))
    case _ => e
  }

  lemma ReprintedOk<F(!new)>(codec: Codec<F>, e: Entry<F>)
    requires CodecOk(codec)
    ensures FloatsSurvive(codec, e) <==> FloatsRead(codec, e) && Reprinted(codec, e) == e
  {
    match e
    case Insert(_, vector, _) => VectorBackOk(codec, vector);
    case Create(HnswTable(_, _, _, _, ml, _, _)) => SurvivesOk(codec, ml);
    case _ =>
  }

  /** One line reads back as its entry with the floats as they read back. */
  lemma ParseEntryReads<F(!new)>(codec: Codec<F>, hnsw: bool, e: Entry<F>)
    requires CodecOk(codec) && InRange(hnsw, e)
    ensures FloatsRead(codec, e) ==> ParseEntry(codec, hnsw, ShowEntry(codec, e)) == Some(Reprinted(codec, e))
    ensures !FloatsRead(codec, e) ==> ParseEntry(codec, hnsw, ShowEntry(codec, e)) != Some(e)
  {
    match e
    case Insert(_, vector, _) =>
      ParseInsertOk(codec, hnsw, e);
      VectorBackOk(codec, vector);
    case Remove(id) => ParseRemoveOk(codec, hnsw, id);
    case Create(config) => ParseCreateOk(codec, hnsw, config);
    case Drop =>
      assert "drop" + "" == "drop";
      ReadWordOk("drop", "");
  }

  lemma ParseRemoveOk<F(!new)>(codec: Codec<F>, hnsw: bool, id: Id)
    requires id < WORD
    ensures ParseEntry(codec, hnsw, ShowEntry(codec, Entry<F>.Remove(id))) == Some(Remove(id))
  {
    ReadWordOk("remove", Field(ShowNat(id), ""));
    ReadNatOk(id, "", WORD);
  }

  lemma ParseCreateOk<F(!new)>(codec: Codec<F>, hnsw: bool, config: TableConfig<F>)
    requires CodecOk(codec) && InRange(hnsw, Create(config))
    ensures FloatsRead(codec, Create(config)) ==>
      ParseEntry(codec, hnsw, ShowEntry(codec, Create(config))) == Some(Reprinted(codec, Create(config)))
    ensures !FloatsRead(codec, Create(config)) ==> ParseEntry(codec, hnsw, ShowEntry(codec, Create(config))) == None
  {
    ReadWordOk("create", ShowConfig(codec, config));
    if hnsw {
      ParseHnswOk(codec, config);
    } else {
      ParseFlatOk(codec, config);
    }
  }

  /** One line reads back as its entry exactly when its floats survive. */
  lemma ParseEntryOk<F(!new)>(codec: Codec<F>, hnsw: bool, e: Entry<F>)
    requires CodecOk(codec) && InRange(hnsw, e)
    ensures ParseEntry(codec, hnsw, ShowEntry(codec, e)) == Some(e) <==> FloatsSurvive(codec, e)
  {
    ReprintedOk(codec, e);
    ParseEntryReads(codec, hnsw, e);
  }

  // ----- lines

  function LineEnds(s: string): nat {
    if s == "" then 0 else (if s[0] == '\n' then 1 else 0) + LineEnds(s[1..])
  }

  lemma {:induction false} LineEndsConcat(a: string, b: string)
    ensures LineEnds(a + b) == LineEnds(a) + LineEnds(b)
  {
    if a == "" {
      assert a + b == b;
    } else {
      assert (a + b)[1..] == a[1..] + b;
      LineEndsConcat(a[1..], b);
    }
  }

  predicate OneLine(s: string) {
    '\n' !in s
  }

  lemma {:induction false} LineEndsZero(s: string)
    ensures LineEnds(s) == 0 <==> OneLine(s)
  {
    if s == "" {
    } else {
      assert s == [s[0]] + s[1..];
      LineEndsZero(s[1..]);
    }
  }

  lemma {:induction false} LineSpanOk(line: string, rest: string)
    requires OneLine(line)
    ensures LineSpan(line + "\n" + rest) == |line|
  {
    if line == "" {
      assert (line + "\n" + rest)[0] == '\n';
    } else {
      assert (line + "\n" + rest)[1..] == line[1..] + "\n" + rest;
      LineSpanOk(line[1..], rest);
    }
  }

  lemma LineEndsCons(line: string, rest: string)
    ensures LineEnds(line + "\n" + rest) == LineEnds(line) + 1 + LineEnds(rest)
  {
    var tail := "\n" + rest;
    assert line + "\n" + rest == line + tail;
    LineEndsConcat(line, tail);
    assert tail[1..] == rest;
  }

  lemma LineEndsAfter(s: string)
    requires s != "" && s[|s| - 1] == '\n'
    ensures var t := AfterLine(s);
      && LineEnds(s) == 1 + LineEnds(t)
      && |t| < |s| && (t != "" ==> t[|t| - 1] == '\n')
  {
    var n := LineSpan(s);
    assert n < |s|;
    assert s == s[..n] + "\n" + s[n + 1..];
    LineEndsCons(s[..n], s[n + 1..]);
    LineEndsZero(s[..n]);
  }

  /** A text made of finished lines has as many entries as line ends. */
  lemma {:induction false} EntriesPerLine<F>(codec: Codec<F>, hnsw: bool, s: string)
    requires s != "" ==> s[|s| - 1] == '\n'
    ensures |ParseLog(codec, hnsw, s)| == LineEnds(s)
    decreases |s|
  {
    if s == "" {
    } else {
      LineEndsAfter(s);
      EntriesPerLine(codec, hnsw, AfterLine(s));
    }
  }

  lemma {:induction false} LogEnds<F>(codec: Codec<F>, log: seq<Entry<F>>)
    ensures var s := ShowLog(codec, log); (s == "" <==> log == []) && (s != "" ==> s[|s| - 1] == '\n')
  {
    if log == [] {
    } else {
      LogEnds(codec, log[1..]);
    }
  }

  predicate AllOneLine<F>(codec: Codec<F>, log: seq<Entry<F>>) {
    forall i :: 0 <= i < |log| ==> OneLine(ShowEntry(codec, log[i]))
  }

  lemma AllOneLineCons<F>(codec: Codec<F>, log: seq<Entry<F>>)
    requires log != []
    ensures AllOneLine(codec, log) <==> OneLine(ShowEntry(codec, log[0])) && AllOneLine(codec, log[1..])
  {
    assert forall i :: 0 < i < |log| ==> log[i] == log[1..][i - 1];
  }

  lemma {:induction false} LineEndsOfLog<F>(codec: Codec<F>, log: seq<Entry<F>>)
    ensures LineEnds(ShowLog(codec, log)) >= |log|
    ensures LineEnds(ShowLog(codec, log)) == |log| <==> AllOneLine(codec, log)
  {
    if log == [] {
    } else {
      var line := ShowEntry(codec, log[0]);
      LineEndsOfLog(codec, log[1..]);
      LineEndsCons(line, ShowLog(codec, log[1..]));
      LineEndsZero(line);
      AllOneLineCons(codec, log);
    }
  }

  lemma FirstLine(line: string, rest: string)
    requires OneLine(line)
    ensures var s := line + "\n" + rest; s != "" && s[..LineSpan(s)] == line && AfterLine(s) == rest
  {
    LineSpanOk(line, rest);
  }

  /** With one line per entry, the lines are parsed one by one. */
  lemma {:induction false} ParseLines<F>(codec: Codec<F>, hnsw: bool, log: seq<Entry<F>>)
    requires AllOneLine(codec, log)
    ensures var r := ParseLog(codec, hnsw, ShowLog(codec, log));
      |r| == |log| && forall i :: 0 <= i < |log| ==> r[i] == ParseEntry(codec, hnsw, ShowEntry(codec, log[i]))
  {
    if log == [] {
    } else {
      var line := ShowEntry(codec, log[0]);
      var rest := ShowLog(codec, log[1..]);
      AllOneLineCons(codec, log);
      FirstLine(line, rest);
      ParseLines(codec, hnsw, log[1..]);
      var r := ParseLog(codec, hnsw, ShowLog(codec, log));
      assert r == [ParseEntry(codec, hnsw, line)] + ParseLog(codec, hnsw, rest);
      forall i | 0 <= i < |log|
        ensures r[i] == ParseEntry(codec, hnsw, ShowEntry(codec, log[i]))
      {
        assert i > 0 ==> log[i] == log[1..][i - 1];
      }
    }
  }

  // ----- the round trip

  /** What a caller can check of an operation before logging it: no line end in the content, and every float
      prints and reads as itself. */
  predicate Loggable<F(==)>(codec: Codec<F>, e: Entry<F>) {
    FloatsSurvive(codec, e) && (e.Insert? ==> OneLine(e.content))
  }

  ghost predicate ReadsBack<F>(codec: Codec<F>, hnsw: bool, log: seq<Entry<F>>) {
    var r := ParseLog(codec, hnsw, ShowLog(codec, log));
    |r| == |log| && forall i :: 0 <= i < |log| ==> r[i] == Some(log[i])
  }

  lemma FloatOneLine<F(!new)>(codec: Codec<F>, v: F)
    requires CodecOk(codec)
    ensures OneLine(codec.show(v))
  {
    assert PrintOk(codec, v);
  }

  lemma {:induction false} VectorOneLine<F(!new)>(codec: Codec<F>, vector: seq<F>)
    requires CodecOk(codec)
    ensures OneLine(ShowVector(codec, vector))
  {
    if vector == [] {
    } else {
      FloatOneLine(codec, vector[0]);
      VectorOneLine(codec, vector[1..]);
    }
  }

  lemma Joined(a: string, b: string)
    ensures OneLine(a + b) <==> OneLine(a) && OneLine(b)
    ensures OneLine(Field(a, b)) <==> OneLine(a) && OneLine(b)
  {}

  lemma NatOneLine(n: nat)
    ensures OneLine(ShowNat(n))
  {
    assert forall i :: 0 <= i < |ShowNat(n)| ==> IsDigit(ShowNat(n)[i]);
  }

  lemma IntOneLine(n: int)
    ensures OneLine(ShowInt(n))
  {
    NatOneLine(if n < 0 then 0 - n else n);
  }

  lemma ConfigOneLine<F(!new)>(codec: Codec<F>, config: TableConfig<F>)
    requires CodecOk(codec)
    ensures OneLine(ShowConfig(codec, config))
  {
    var t1 := Field(ShowNat(config.cacheSize), "");
    var t2 := Field(ShowMetric(config.metric), t1);
    assert OneLine(t2) by { NatOneLine(config.cacheSize); }
    IntOneLine(config.dim);
    match config
    case FlatTable(dim, _, _) =>
      Joined(ShowInt(dim), t2);
    case HnswTable(dim, m, m0, ef, ml, _, _) =>
      var t3 := Field(codec.show(ml), t2);
      var t4 := Field(ShowNat(ef), t3);
      var t5 := Field(ShowNat(m0), t4);
      var t6 := Field(ShowNat(m), t5);
      assert OneLine(t3) by { FloatOneLine(codec, ml); Joined(codec.show(ml), t2); }
      assert OneLine(t4) by { NatOneLine(ef); Joined(ShowNat(ef), t3); }
      assert OneLine(t5) by { NatOneLine(m0); Joined(ShowNat(m0), t4); }
      assert OneLine(t6) by { NatOneLine(m); Joined(ShowNat(m), t5); }
      Joined(ShowInt(dim), t6);
  }

  /** Only a content can break a line. */
  lemma EntryOneLine<F(!new)>(codec: Codec<F>, e: Entry<F>)
    requires CodecOk(codec)
    ensures OneLine(ShowEntry(codec, e)) <==> (e.Insert? ==> OneLine(e.content))
  {
    match e
    case Insert(id, vector, content) =>
      var tail := ShowVector(codec, vector) + " | " + content;
      assert OneLine(tail) <==> OneLine(content) by {
        VectorOneLine(codec, vector);
        Joined(ShowVector(codec, vector), " | ");
        Joined(ShowVector(codec, vector) + " | ", content);
      }
      NatOneLine(id);
      Joined(ShowNat(id), tail);
      Joined("insert", Field(ShowNat(id), tail));
    case Remove(id) =>
      NatOneLine(id);
      Joined(ShowNat(id), "");
      Joined("remove", Field(ShowNat(id), ""));
    case Create(config) =>
      ConfigOneLine(codec, config);
      Joined("create", ShowConfig(codec, config));
    case Drop =>
  }

  /** The printed log reads back as the entries that were logged if and only if every one was loggable. */
  lemma LogRoundTrip<F(!new)>(codec: Codec<F>, hnsw: bool, log: seq<Entry<F>>)
    requires CodecOk(codec) && forall i :: 0 <= i < |log| ==> InRange(hnsw, log[i])
    ensures ReadsBack(codec, hnsw, log) <==> forall i :: 0 <= i < |log| ==> Loggable(codec, log[i])
  {
    LogEnds(codec, log);
    EntriesPerLine(codec, hnsw, ShowLog(codec, log));
    LineEndsOfLog(codec, log);
    forall i | 0 <= i < |log|
      ensures OneLine(ShowEntry(codec, log[i])) <==> (log[i].Insert? ==> OneLine(log[i].content))
      ensures ParseEntry(codec, hnsw, ShowEntry(codec, log[i])) == Some(log[i]) <==> FloatsSurvive(codec, log[i])
    {
      ParseEntryOk(codec, hnsw, log[i]);
      EntryOneLine(codec, log[i]);
    }
    if AllOneLine(codec, log) {
      ParseLines(codec, hnsw, log);
    }
  }
}
