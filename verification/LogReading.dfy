/** What the program gets back from its log (engine/src/storage/persistence_manager.cc): startup replays and a
    replica is sent not the operations that were logged but the lines that were printed, parsed again. */
module LogReadings {
  import opened Ranking
  import opened LogEntries
  import opened WalText
  import opened WalRoundTrip
  import opened StoredRecords
  import opened Replay

  /** How the log of one table is printed and read. A garbled creation leaves indeterminate values behind;
      they are `junk`. */
  datatype Format = Format(codec: Codec<real>, hnsw: bool, junk: TableConfig<real>)

  function Delivered(f: Format, o: Option<Op>): Op {
    match o
    case Some(e) => e
    case None => Create(f.junk)
  }

  function DeliveredAll(f: Format, entries: seq<Option<Op>>): (r: seq<Op>)
    ensures |r| == |entries| && forall i :: 0 <= i < |r| ==> r[i] == Delivered(f, entries[i])
  {
    seq(|entries|, i requires 0 <= i < |entries| => Delivered(f, entries[i]))
  }

  /** The operations that the lines of a text say. */
  function Lines(f: Format, text: string): seq<Op> {
    DeliveredAll(f, ParseLog(f.codec, f.hnsw, text))
  }

  /** The operations that the lines of a printed log say. */
  function Reread(f: Format, log: seq<Op>): seq<Op> {
    Lines(f, ShowLog(f.codec, log))
  }

  /** The operations that the lines of one printed entry say. */
  function LinesOf(f: Format, e: Op): seq<Op> {
    Lines(f, ShowEntry(f.codec, e) + "\n")
  }

  // ----- line by line

  predicate Finished(s: string) {
    s != "" ==> s[|s| - 1] == '\n'
  }

  lemma {:induction false} LineSpanConcat(s: string, t: string)
    requires s != "" && Finished(s)
    ensures LineSpan(s + t) == LineSpan(s) < |s|
  {
    assert (s + t)[0] == s[0];
    if s[0] == '\n' {
    } else {
      assert (s + t)[1..] == s[1..] + t;
      LineSpanConcat(s[1..], t);
    }
  }

  lemma FirstLineConcat(s: string, t: string)
    requires s != "" && Finished(s)
    ensures (s + t)[..LineSpan(s + t)] == s[..LineSpan(s)] && AfterLine(s + t) == AfterLine(s) + t
    ensures Finished(AfterLine(s)) && |AfterLine(s)| < |s|
  {
    LineSpanConcat(s, t);
  }

  lemma {:induction false} ParseLogConcat(f: Format, s: string, t: string)
    requires Finished(s)
    ensures ParseLog(f.codec, f.hnsw, s + t) == ParseLog(f.codec, f.hnsw, s) + ParseLog(f.codec, f.hnsw, t)
    decreases |s|
  {
    if s == "" {
      assert s + t == t;
    } else {
      FirstLineConcat(s, t);
      ParseLogConcat(f, AfterLine(s), t);
      ParseLogCons(f, s);
      ParseLogCons(f, s + t);
      Regroup([ParseEntry(f.codec, f.hnsw, s[..LineSpan(s)])], ParseLog(f.codec, f.hnsw, AfterLine(s)),
        ParseLog(f.codec, f.hnsw, t));
    }
  }

  lemma Regroup<T>(a: seq<T>, b: seq<T>, c: seq<T>)
    ensures a + (b + c) == (a + b) + c
  {}

  lemma ParseLogCons(f: Format, s: string)
    requires s != ""
    ensures ParseLog(f.codec, f.hnsw, s) ==
      [ParseEntry(f.codec, f.hnsw, s[..LineSpan(s)])] + ParseLog(f.codec, f.hnsw, AfterLine(s))
  {}

  lemma LinesConcat(f: Format, s: string, t: string)
    requires Finished(s)
    ensures Lines(f, s + t) == Lines(f, s) + Lines(f, t)
  {
    ParseLogConcat(f, s, t);
    DeliveredConcat(f, ParseLog(f.codec, f.hnsw, s), ParseLog(f.codec, f.hnsw, t));
  }

  lemma DeliveredConcat(f: Format, a: seq<Option<Op>>, b: seq<Option<Op>>)
    ensures DeliveredAll(f, a + b) == DeliveredAll(f, a) + DeliveredAll(f, b)
  {}

  lemma LinesCons(f: Format, s: string)
    requires s != ""
    ensures Lines(f, s) == [Delivered(f, ParseEntry(f.codec, f.hnsw, s[..LineSpan(s)]))] + Lines(f, AfterLine(s))
  {
    ParseLogCons(f, s);
    DeliveredConcat(f, [ParseEntry(f.codec, f.hnsw, s[..LineSpan(s)])], ParseLog(f.codec, f.hnsw, AfterLine(s)));
  }

  lemma {:induction false} ShowLogConcat(codec: Codec<real>, a: seq<Op>, b: seq<Op>)
    ensures ShowLog(codec, a + b) == ShowLog(codec, a) + ShowLog(codec, b)
  {
    if a == [] {
      assert a + b == b;
    } else {
      assert (a + b)[0] == a[0] && (a + b)[1..] == a[1..] + b;
      ShowLogConcat(codec, a[1..], b);
    }
  }

  lemma RereadConcat(f: Format, a: seq<Op>, b: seq<Op>)
    ensures Reread(f, a + b) == Reread(f, a) + Reread(f, b)
  {
    ShowLogConcat(f.codec, a, b);
    LogEnds(f.codec, a);
    LinesConcat(f, ShowLog(f.codec, a), ShowLog(f.codec, b));
  }

  lemma ShowLogOne(codec: Codec<real>, e: Op)
    ensures ShowLog(codec, [e]) == ShowEntry(codec, e) + "\n"
  {
    var s := ShowEntry(codec, e) + "\n";
    assert [e][1..] == [];
    assert ShowLog(codec, [e]) == s + "" == s;
  }

  lemma RereadOne(f: Format, e: Op)
    ensures Reread(f, [e]) == LinesOf(f, e) != []
  {
    ShowLogOne(f.codec, e);
    LinesCons(f, ShowEntry(f.codec, e) + "\n");
  }

  // ----- printable operations

  /** What a caller can check before the call: no line end in the content, and every float reads back as
      something. */
  predicate Printable(codec: Codec<real>, e: Op) {
    FloatsRead(codec, e) && (e.Insert? ==> OneLine(e.content))
  }

  ghost predicate AllPrintable(codec: Codec<real>, log: seq<Op>) {
    forall i :: 0 <= i < |log| ==> Printable(codec, log[i])
  }

  ghost predicate AllInRange(hnsw: bool, log: seq<Op>) {
    forall i :: 0 <= i < |log| ==> InRange(hnsw, log[i])
  }

  /** What a caller can check for nothing to be lost: the components of an insertion are also the same when
      read back. (The `ml` of a creation need not be: the records do not depend on it.) */
  predicate Kept(codec: Codec<real>, e: Op) {
    Printable(codec, e) && (e.Insert? ==> AllSurvive(codec, e.vector))
  }

  ghost predicate AllKept(codec: Codec<real>, log: seq<Op>) {
    forall i :: 0 <= i < |log| ==> Kept(codec, log[i])
  }

  function ReprintedAll(codec: Codec<real>, log: seq<Op>): (r: seq<Op>)
    ensures |r| == |log| && forall i :: 0 <= i < |r| ==> r[i] == Reprinted(codec, log[i])
  {
    seq(|log|, i requires 0 <= i < |log| => Reprinted(codec, log[i]))
  }

  /** The one line of an entry whose content does not break it. */
  lemma OneLineOf(f: Format, e: Op)
    requires CodecOk(f.codec) && (e.Insert? ==> OneLine(e.content))
    ensures LinesOf(f, e) == [Delivered(f, ParseEntry(f.codec, f.hnsw, ShowEntry(f.codec, e)))]
  {
    var line := ShowEntry(f.codec, e);
    EntryOneLine(f.codec, e);
    FirstLine(line, "");
    assert line + "\n" + "" == line + "\n";
    LinesCons(f, line + "\n");
  }

  lemma PrintableLine(f: Format, e: Op)
    requires CodecOk(f.codec) && InRange(f.hnsw, e) && Printable(f.codec, e)
    ensures LinesOf(f, e) == [Reprinted(f.codec, e)]
  {
    OneLineOf(f, e);
    ParseEntryReads(f.codec, f.hnsw, e);
  }

  lemma KeptLine(f: Format, e: Op)
    requires CodecOk(f.codec) && InRange(f.hnsw, e) && Kept(f.codec, e) && IsWrite(e)
    ensures LinesOf(f, e) == [e]
  {
    PrintableLine(f, e);
    ReprintedOk(f.codec, e);
  }

  lemma RereadSnoc(f: Format, log: seq<Op>, e: Op)
    requires CodecOk(f.codec) && InRange(f.hnsw, e) && Printable(f.codec, e)
    ensures Reread(f, log + [e]) == Reread(f, log) + [Reprinted(f.codec, e)]
  {
    RereadConcat(f, log, [e]);
    RereadOne(f, e);
    PrintableLine(f, e);
  }

  /** A log of printable operations says them again, with their floats as they read back. */
  lemma {:induction false} PrintableLog(f: Format, log: seq<Op>)
    requires CodecOk(f.codec) && AllInRange(f.hnsw, log) && AllPrintable(f.codec, log)
    ensures Reread(f, log) == ReprintedAll(f.codec, log)
  {
    if log == [] {
    } else {
      var n := |log| - 1;
      assert log == log[..n] + [log[n]];
      PrintableLog(f, log[..n]);
      RereadSnoc(f, log[..n], log[n]);
    }
  }

  /** A content with a line end says something else: what follows the line end is an operation of its own,
      here a removal. */
  lemma LineEndRemoves(f: Format, id: Id, vector: Vector, content: string, other: Id)
    requires CodecOk(f.codec) && id < WORD && other < WORD && AllRead(f.codec, vector) && OneLine(content)
    ensures LinesOf(f, Entry.Insert(id, vector, content + "\nremove " + ShowNat(other))) ==
      [Entry.Insert(id, VectorBack(f.codec, vector), content), Entry.Remove(other)]
  {
    var a: Op := Entry.Insert(id, vector, content);
    var b: Op := Entry.Remove(other);
    SameText(f.codec, id, vector, content, other);
    assert AllPrintable(f.codec, [a, b]) && AllInRange(f.hnsw, [a, b]);
    PrintableLog(f, [a, b]);
  }

  /** What an insertion prints before its content. */
  function Head(codec: Codec<real>, id: Id, vector: Vector): string {
    "insert" + " " + ShowNat(id) + ShowVector(codec, vector) + " | "
  }

  lemma ShowInsertion(codec: Codec<real>, id: Id, vector: Vector, content: string)
    ensures ShowEntry(codec, Entry.Insert(id, vector, content)) == Head(codec, id, vector) + content
  {}

  lemma ShowRemoval(codec: Codec<real>, id: Id)
    ensures ShowEntry(codec, Entry<real>.Remove(id)) == "remove " + ShowNat(id)
  {
    assert "remove" + " " == "remove ";
  }

  lemma SameText(codec: Codec<real>, id: Id, vector: Vector, content: string, other: Id)
    ensures ShowEntry(codec, Entry.Insert(id, vector, content + "\nremove " + ShowNat(other))) + "\n" ==
      ShowLog(codec, [Entry.Insert(id, vector, content), Entry.Remove(other)])
  {
    var a: Op := Entry.Insert(id, vector, content);
    var b: Op := Entry.Remove(other);
    assert [a, b] == [a] + [b];
    ShowLogConcat(codec, [a], [b]);
    ShowLogOne(codec, a);
    ShowLogOne(codec, b);
    ShowRemoval(codec, other);
    ShowInsertion(codec, id, vector, content);
    ShowInsertion(codec, id, vector, content + "\nremove " + ShowNat(other));
    BrokenLine(Head(codec, id, vector), content, ShowNat(other));
  }

  lemma BrokenLine(head: string, content: string, other: string)
    ensures head + (content + "\nremove " + other) + "\n" == (head + content + "\n") + ("remove " + other + "\n")
  {
    assert "\nremove " == "\n" + "remove ";
  }

  // ----- contents never have line ends once read back

  lemma OneLinePart(s: string, n: nat)
    requires OneLine(s) && n <= |s|
    ensures OneLine(s[..n]) && OneLine(s[n..])
  {}

  lemma {:induction false} OneLineSkip(s: string)
    requires OneLine(s)
    ensures OneLine(SkipSpace(s))
  {
    if s == "" || !IsSpace(s[0]) {
    } else {
      OneLinePart(s, 1);
      OneLineSkip(s[1..]);
    }
  }

  lemma {:induction false} OneLineVector(codec: Codec<real>, s: string)
    requires OneLine(s)
    ensures OneLine(ReadVector(codec, s).1)
    decreases |s|
  {
    var (v, rest) := ReadFloat(codec, s);
    OneLineSkip(s);
    OneLinePart(SkipSpace(s), FloatSpan(SkipSpace(s)));
    SkipShrinks(s);
    if v == None || |rest| >= |s| {
    } else {
      OneLineVector(codec, rest);
    }
  }

  lemma OneLineNat(s: string, limit: nat)
    requires OneLine(s) && limit > 0
    ensures OneLine(ReadNat(s, limit).rest)
  {
    OneLineSkip(s);
    var t := SkipSpace(s);
    var d := if t != "" && IsSign(t[0]) then t[1..] else t;
    OneLinePart(t, |t| - |d|);
    OneLinePart(d, DigitSpan(d));
  }

  predicate PlainContent(e: Op) {
    e.Insert? ==> OneLine(e.content)
  }

  lemma ContentPlain(rest: string)
    requires OneLine(rest)
    ensures var content := SkipSpace(rest); OneLine(if "| " <= content then content[2..] else content)
  {
    OneLineSkip(rest);
    if "| " <= SkipSpace(rest) {
      OneLinePart(SkipSpace(rest), 2);
    }
  }

  lemma ParsedPlain(codec: Codec<real>, s: string)
    requires OneLine(s)
    ensures PlainContent(ParseInsert(codec, s))
  {
    var id := ReadNat(s, WORD);
    OneLineNat(s, WORD);
    if id.ok {
      OneLineVector(codec, id.rest);
    }
    ContentPlain(if id.ok then ReadVector(codec, id.rest).1 else id.rest);
  }

  /** An insertion that a line says is what its command says, or the empty one of an unknown command. */
  lemma ParsedLine(f: Format, line: string) returns (o: Option<Op>)
    ensures o == ParseEntry(f.codec, f.hnsw, line)
    ensures o.Some? && o.value.Insert? ==>
      o.value == ParseInsert(f.codec, ReadWord(line).rest) || o.value.content == ""
  {
    o := ParseEntry(f.codec, f.hnsw, line);
  }

  lemma PlainOf(f: Format, o: Option<Op>, e: Op)
    requires PlainContent(e) && (o.Some? && o.value.Insert? ==> o.value == e || o.value.content == "")
    ensures PlainContent(Delivered(f, o))
  {}

  lemma LinePlain(f: Format, line: string)
    requires OneLine(line)
    ensures PlainContent(Delivered(f, ParseEntry(f.codec, f.hnsw, line)))
  {
    OneLineSkip(line);
    OneLinePart(SkipSpace(line), WordSpan(SkipSpace(line)));
    ParsedPlain(f.codec, ReadWord(line).rest);
    var o := ParsedLine(f, line);
    PlainOf(f, o, ParseInsert(f.codec, ReadWord(line).rest));
  }

  lemma {:induction false} LinesPlain(f: Format, s: string)
    ensures forall x :: x in Lines(f, s) ==> PlainContent(x)
    decreases |s|
  {
    if s == "" {
    } else {
      LinePlain(f, s[..LineSpan(s)]);
      LinesPlain(f, AfterLine(s));
      LinesCons(f, s);
    }
  }

  // ----- drops

  /** Some line of the text is the command to drop the table. */
  predicate SaysDrop(text: string)
    decreases |text|
  {
    text != "" && (ReadWord(text[..LineSpan(text)]).value == "drop" || SaysDrop(AfterLine(text)))
  }

  /** What a caller can check of a content: after its first line end there is a line that says so. */
  predicate HidesDrop(e: Op) {
    e.Insert? && SaysDrop(AfterLine(e.content))
  }

  predicate SomeHidesDrop(log: seq<Op>) {
    log != [] && (HidesDrop(log[0]) || SomeHidesDrop(log[1..]))
  }

  lemma {:induction false} DropLines(f: Format, text: string)
    ensures Drop in Lines(f, text) <==> SaysDrop(text)
    decreases |text|
  {
    if text == "" {
    } else {
      LinesCons(f, text);
      DropLines(f, AfterLine(text));
    }
  }

  /** The line end that finishes the last line makes no difference. */
  lemma {:induction false} SaysDropFinished(text: string)
    ensures SaysDrop(text + "\n") <==> SaysDrop(text)
    decreases |text|
  {
    if OneLine(text) {
      FirstLine(text, "");
      assert text + "\n" + "" == text + "\n";
      LineSpanAll(text);
      assert text[..LineSpan(text)] == text;
      assert ReadWord("").value == "";
    } else {
      LineSpanBroken(text);
      assert (text + "\n")[..LineSpan(text)] == text[..LineSpan(text)];
      assert AfterLine(text + "\n") == AfterLine(text) + "\n";
      SaysDropFinished(AfterLine(text));
    }
  }

  lemma {:induction false} LineSpanAll(s: string)
    requires OneLine(s)
    ensures LineSpan(s) == |s| && AfterLine(s) == ""
  {
    if s == "" {
    } else {
      LineSpanAll(s[1..]);
    }
  }

  lemma {:induction false} LineSpanBroken(s: string)
    requires !OneLine(s)
    ensures LineSpan(s) < |s| && LineSpan(s + "\n") == LineSpan(s)
  {
    assert (s + "\n")[0] == s[0];
    if s[0] == '\n' {
    } else {
      assert s == [s[0]] + s[1..];
      assert (s + "\n")[1..] == s[1..] + "\n";
      LineSpanBroken(s[1..]);
    }
  }

  lemma {:induction false} LineSpanPrefixed(head: string, s: string)
    requires OneLine(head)
    ensures LineSpan(head + s) == |head| + LineSpan(s) && AfterLine(head + s) == AfterLine(s)
  {
    if head == "" {
      assert head + s == s;
    } else {
      assert (head + s)[1..] == head[1..] + s;
      LineSpanPrefixed(head[1..], s);
    }
  }

  lemma HeadOneLine(codec: Codec<real>, id: Id, vector: Vector)
    requires CodecOk(codec)
    ensures OneLine(Head(codec, id, vector))
  {
    EntryOneLine(codec, Entry.Insert(id, vector, ""));
    ShowInsertion(codec, id, vector, "");
    assert Head(codec, id, vector) + "" == Head(codec, id, vector);
  }

  lemma InsertionWord(codec: Codec<real>, id: Id, vector: Vector, content: string)
    ensures ReadWord(Head(codec, id, vector) + content).value == "insert"
  {
    ShowInsertion(codec, id, vector, content);
    ReadWordOk("insert", Field(ShowNat(id), ShowVector(codec, vector) + " | " + content));
  }

  lemma InsertionDrops(f: Format, e: Op)
    requires CodecOk(f.codec) && e.Insert?
    ensures Drop in LinesOf(f, e) <==> HidesDrop(e)
  {
    var head := Head(f.codec, e.id, e.vector);
    var text := ShowEntry(f.codec, e);
    ShowInsertion(f.codec, e.id, e.vector, e.content);
    HeadOneLine(f.codec, e.id, e.vector);
    LineSpanPrefixed(head, e.content);
    assert text[..LineSpan(text)] == head + e.content[..LineSpan(e.content)];
    InsertionWord(f.codec, e.id, e.vector, e.content[..LineSpan(e.content)]);
    DropLines(f, text + "\n");
    SaysDropFinished(text);
  }

  /** Among the lines of an entry that is no drop itself there is one if and only if its content hides it. */
  lemma DropsOf(f: Format, e: Op)
    requires CodecOk(f.codec) && InRange(f.hnsw, e) && !e.Drop?
    ensures Drop in LinesOf(f, e) <==> HidesDrop(e)
  {
    match e
    case Insert(_, _, _) => InsertionDrops(f, e);
    case Remove(id) =>
      OneLineOf(f, e);
      ParseRemoveOk(f.codec, f.hnsw, id);
    case Create(config) =>
      OneLineOf(f, e);
      ParseCreateOk(f.codec, f.hnsw, config);
  }

  lemma {:induction false} SomeSnoc(log: seq<Op>, e: Op)
    ensures SomeHidesDrop(log + [e]) <==> SomeHidesDrop(log) || HidesDrop(e)
  {
    if log == [] {
      assert [] + [e] == [e] && [e][1..] == [];
    } else {
      assert (log + [e])[0] == log[0] && (log + [e])[1..] == log[1..] + [e];
      SomeSnoc(log[1..], e);
    }
  }

  lemma {:induction false} DropsOfLog(f: Format, log: seq<Op>)
    requires CodecOk(f.codec) && AllInRange(f.hnsw, log) && Drop !in log
    ensures Drop in Reread(f, log) <==> SomeHidesDrop(log)
  {
    if log == [] {
    } else {
      assert log == [log[0]] + log[1..];
      DropsOfLog(f, log[1..]);
      DropsOf(f, log[0]);
      RereadConcat(f, [log[0]], log[1..]);
      RereadOne(f, log[0]);
    }
  }

  lemma SaysDropItself()
    ensures SaysDrop("drop")
  {
    LineSpanAll("drop");
    ReadWordOk("drop", "");
    assert "drop" + "" == "drop" == "drop"[..4];
  }

  /** The shortest way to hide one. */
  lemma LineEndDrops(id: Id, vector: Vector, content: string)
    requires OneLine(content)
    ensures HidesDrop(Entry.Insert(id, vector, content + "\ndrop"))
  {
    assert content + "\ndrop" == content + "\n" + "drop";
    FirstLine(content, "drop");
    SaysDropItself();
  }

  // ----- lines that say nothing

  predicate NoCommand(line: string) {
    var command := ReadWord(line).value;
    command != "insert" && command != "remove" && command != "create" && command != "drop"
  }

  /** No line of the text starts with a command. */
  predicate Chatter(text: string)
    decreases |text|
  {
    text == "" || (NoCommand(text[..LineSpan(text)]) && Chatter(AfterLine(text)))
  }

  /** A line without a command does nothing to a table of vectors. */
  lemma NoCommandFails(f: Format, line: string, dim: nat, store: Records)
    requires NoCommand(line) && dim > 0
    ensures var e := Delivered(f, ParseEntry(f.codec, f.hnsw, line));
      !Succeeds(dim, store, e) && Step(dim, store, e) == store && e != Drop
  {}

  lemma {:induction false} ChatterFails(f: Format, text: string, dim: nat, store: Records)
    requires Chatter(text) && dim > 0
    ensures Play(dim, store, Lines(f, text)) == store && Drop !in Lines(f, text)
    decreases |text|
  {
    if text == "" {
    } else {
      var line := text[..LineSpan(text)];
      NoCommandFails(f, line, dim, store);
      ChatterFails(f, AfterLine(text), dim, store);
      LinesCons(f, text);
      PlayConcat(dim, store, [Delivered(f, ParseEntry(f.codec, f.hnsw, line))], Lines(f, AfterLine(text)));
      PlayOne(dim, store, Delivered(f, ParseEntry(f.codec, f.hnsw, line)));
    }
  }

  lemma {:induction false} ChatterFinished(text: string)
    requires Chatter(text)
    ensures Chatter(text + "\n")
    decreases |text|
  {
    if OneLine(text) {
      FirstLine(text, "");
      assert text + "\n" + "" == text + "\n";
      LineSpanAll(text);
      assert text[..LineSpan(text)] == text && NoCommand("");
    } else {
      LineSpanBroken(text);
      assert (text + "\n")[..LineSpan(text)] == text[..LineSpan(text)];
      assert AfterLine(text + "\n") == AfterLine(text) + "\n";
      ChatterFinished(AfterLine(text));
    }
  }

  /** The lines of an insertion whose content goes on after a line end: the insertion with the content cut short, and
      then the rest. */
  lemma CutContent(f: Format, id: Id, vector: Vector, content: string, more: string)
    requires CodecOk(f.codec) && id < WORD && AllRead(f.codec, vector) && OneLine(content)
    ensures LinesOf(f, Entry.Insert(id, vector, content + "\n" + more)) ==
      [Entry.Insert(id, VectorBack(f.codec, vector), content)] + Lines(f, more + "\n")
  {
    var e: Op := Entry.Insert(id, vector, content);
    var text := ShowEntry(f.codec, e) + "\n";
    ShowInsertion(f.codec, id, vector, content);
    ShowInsertion(f.codec, id, vector, content + "\n" + more);
    CutText(Head(f.codec, id, vector), content, more);
    LinesConcat(f, text, more + "\n");
    PrintableLine(f, e);
  }

  lemma CutText(head: string, content: string, more: string)
    ensures head + (content + "\n" + more) + "\n" == (head + content + "\n") + (more + "\n")
  {}

  /** A removal without a number removes id 0. */
  lemma BareRemoval(f: Format, w: string)
    requires w != "" && !(IsSpace(w[0]) || IsDigit(w[0]) || IsSign(w[0]))
    ensures ParseEntry(f.codec, f.hnsw, "remove" + Field(w, "")) == Some(Entry.Remove(0))
  {
    ReadWordOk("remove", Field(w, ""));
    SkipOne(w, "");
    ReadNatNone(w + "", WORD);
  }

  // ----- what one effective insertion leaves behind

  /** An insertion that is not kept is never found among the lines of its own entry: with a line end in the
      content the lines have other contents, and otherwise there is one line and it has another vector. */
  lemma LostInsertion(f: Format, e: Op)
    requires CodecOk(f.codec) && e.Insert? && InRange(f.hnsw, e) && !Kept(f.codec, e)
    ensures e !in LinesOf(f, e)
    ensures OneLine(e.content) ==> forall x :: x in LinesOf(f, e) ==> x.Insert? && x.id == e.id && x.vector != e.vector
  {
    if OneLine(e.content) {
      OneLineOf(f, e);
      ParseInsertOk(f.codec, f.hnsw, e);
      VectorBackOk(f.codec, e.vector);
    } else {
      LinesPlain(f, ShowEntry(f.codec, e) + "\n");
    }
  }

  // ----- the assumptions can be met

  /** A way to print and read with which one float is rounded to six digits. */
  function SixDigits(): Codec<real> {
    Codec(v => if v == 0.1234567 then "0.123457" else "0",
          s => if s == "0.123457" then Some(0.123457) else if s == "0" then Some(0.0) else None)
  }

  lemma {:induction false} DigitsAccumulate(s: string, m: Mantissa)
    requires forall i :: 0 <= i < |s| ==> IsDigit(s[i])
    ensures MantissaSpan(s, m) == |s|
    decreases |s|
  {
    if s == "" {
    } else {
      DigitsAccumulate(s[1..], m.(digits := true));
    }
  }

  lemma FractionText()
    ensures MantissaSpan(".123457", Mantissa(true, false, false)) == 7
  {
    var point := Mantissa(true, true, false);
    assert ".123457"[1..] == "123457";
    assert MantissaStep(".123457", Mantissa(true, false, false)) == (1, point);
    DigitsAccumulate("123457", point);
  }

  lemma RoundedSpan()
    ensures FloatSpan("0.123457") == 8
  {
    assert "0.123457"[1..] == ".123457";
    assert MantissaStep("0.123457", START) == (1, Mantissa(true, false, false));
    FractionText();
  }

  lemma RoundedSolid()
    ensures var s := "0.123457"; forall i :: 0 <= i < |s| ==> !IsSpace(s[i])
  {}

  lemma RoundedText()
    ensures Printed("0.123457")
  {
    RoundedSpan();
    RoundedSolid();
  }

  lemma ZeroText()
    ensures Printed("0")
  {
    DigitsAccumulate("0", START);
  }

  /** All of it is accumulated by an extraction. */
  predicate Printed(s: string) {
    s != "" && (forall i :: 0 <= i < |s| ==> !IsSpace(s[i])) && FloatSpan(s) == |s|
  }

  lemma PrintedOk(codec: Codec<real>, v: real)
    requires Printed(codec.show(v))
    ensures PrintOk(codec, v) && ReadBack(codec, v) == codec.read(codec.show(v))
  {
    assert codec.show(v)[..|codec.show(v)|] == codec.show(v);
  }

  /** What is assumed of printing and reading can be met, with floats that are rounded. */
  lemma SixDigitsOk()
    ensures CodecOk(SixDigits()) && ReadBack(SixDigits(), 0.1234567) == Some(0.123457)
  {
    RoundedText();
    ZeroText();
    forall v: real
      ensures PrintOk(SixDigits(), v)
    {
      PrintedOk(SixDigits(), v);
    }
    PrintedOk(SixDigits(), 0.1234567);
  }
}
