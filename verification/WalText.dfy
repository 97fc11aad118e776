/** The text of the write-ahead log, character by character
    (engine/src/storage/persistence_manager.cc): what the `Append` methods print, and what the stream
    extractions of the replay read back. */
module WalText {
  import opened Ranking
  import opened LogEntries

  // ----- characters and streams

  predicate IsSpace(c: char) {
    c == ' ' || ('\t' <= c <= '\r')
  }

  predicate IsDigit(c: char) {
    '0' <= c <= '9'
  }

  predicate IsSign(c: char) {
    c == '+' || c == '-'
  }

  function SkipSpace(s: string): string {
    if s != "" && IsSpace(s[0]) then SkipSpace(s[1..]) else s
  }

  /** How many leading characters are not blank. */
  function WordSpan(s: string): (n: nat)
    ensures n <= |s|
  {
    if s == "" || IsSpace(s[0]) then 0 else 1 + WordSpan(s[1..])
  }

  function DigitSpan(s: string): (n: nat)
    ensures n <= |s| && forall i :: 0 <= i < n ==> IsDigit(s[i])
  {
    if s == "" || !IsDigit(s[0]) then 0 else 1 + DigitSpan(s[1..])
  }

  /** What a float extraction has met so far. */
  datatype Mantissa = Mantissa(digits: bool, point: bool, exponent: bool)

  /** How many characters it accumulates next: a digit, one point before any exponent, or one exponent after
      a digit, with its sign. */
  function MantissaStep(s: string, m: Mantissa): (r: (nat, Mantissa))
    ensures r.0 <= |s|
  {
    if s == "" then (0, m)
    else if IsDigit(s[0]) then (1, m.(digits := true))
    else if s[0] == '.' && !m.point && !m.exponent then (1, m.(point := true))
    else if (s[0] == 'e' || s[0] == 'E') && m.digits && !m.exponent then
      (if |s| > 1 && IsSign(s[1]) then 2 else 1, m.(exponent := true))
    else (0, m)
  }

  function MantissaSpan(s: string, m: Mantissa): (n: nat)
    ensures n <= |s|
    decreases |s|
  {
    var (n, m') := MantissaStep(s, m);
    if n == 0 then 0 else n + MantissaSpan(s[n..], m')
  }

  const START := Mantissa(false, false, false)

  function FloatSpan(s: string): (n: nat)
    ensures n <= |s|
  {
    if s != "" && IsSign(s[0]) then 1 + MantissaSpan(s[1..], START)
    else MantissaSpan(s, START)
  }

  /** The rest of a stream, and whether the last extraction succeeded. */
  datatype Read<T> = Read(value: T, rest: string, ok: bool)

  function ReadWord(s: string): Read<string> {
    var t := SkipSpace(s);
    var n := WordSpan(t);
    Read(t[..n], t[n..], n > 0)
  }

  function DigitsValue(s: string): nat
    requires forall i :: 0 <= i < |s| ==> IsDigit(s[i])
  {
    if s == "" then 0
    else
      assert IsDigit(s[|s| - 1]);
      DigitsValue(s[..|s| - 1]) * 10 + (s[|s| - 1] as int - '0' as int)
  }

  /** An unsigned extraction: a failed one leaves zero, or the largest value when there is too much to read. A
      sign is read too, and a negative value wraps around. */
  function ReadNat(s: string, limit: nat): Read<nat>
    requires limit > 0
  {
    var t := SkipSpace(s);
    var d := if t != "" && IsSign(t[0]) then t[1..] else t;
    var n := DigitSpan(d);
    var value := DigitsValue(d[..n]);
    if n == 0 then Read(0, d, false)
    else if value >= limit then Read(limit - 1, d[n..], false)
    else Read(if t[0] == '-' && value > 0 then limit - value else value, d[n..], true)
  }

  function ReadInt(s: string, limit: nat): Read<int>
    requires limit > 0
  {
    var t := SkipSpace(s);
    if t != "" && t[0] == '-' then
      var n := DigitSpan(t[1..]);
      if n == 0 then Read<int>.Read(0, t[1..], false)
      else
        var r := ReadNat(t[1..], limit + 1);
        Read<int>.Read(0 - r.value, r.rest, r.ok)
    else
      var r := ReadNat(t, limit);
      Read<int>.Read(r.value, r.rest, r.ok)
  }

  // ----- numbers of the stream library that are taken as given

  /** How a float is printed with the stream's default precision, and what a printed float reads as. */
  datatype Codec<!F> = Codec(show: F -> string, read: string -> Option<F>)

  /** A printed float has no blanks, and either all of it is accumulated by an extraction, or the extraction
      fails on what it does accumulate, as for `inf` and `nan`. */
  ghost predicate CodecOk<F(!new)>(codec: Codec<F>) {
    codec.read("") == None && forall v: F :: PrintOk(codec, v)
  }

  predicate PrintOk<F>(codec: Codec<F>, v: F) {
    var s := codec.show(v);
    && s != "" && (forall i :: 0 <= i < |s| ==> !IsSpace(s[i]))
    && (FloatSpan(s) == |s| || codec.read(s[..FloatSpan(s)]).None?)
  }

  /** What a printed float reads as. */
  function ReadBack<F>(codec: Codec<F>, v: F): Option<F> {
    var s := codec.show(v);
    codec.read(s[..FloatSpan(s)])
  }

  /** Printing and reading give the same float back. */
  predicate Survives<F(==)>(codec: Codec<F>, v: F) {
    var s := codec.show(v);
    FloatSpan(s) == |s| && codec.read(s) == Some(v)
  }

  function ReadFloat<F>(codec: Codec<F>, s: string): (Option<F>, string) {
    var t := SkipSpace(s);
    var n := FloatSpan(t);
    (codec.read(t[..n]), t[n..])
  }

  // ----- printing

  function ShowDigit(d: nat): char
    requires d < 10
  {
    '0' + d as char
  }

  function ShowNat(n: nat): (s: string)
    ensures s != "" && forall i :: 0 <= i < |s| ==> IsDigit(s[i])
  {
    if n < 10 then [ShowDigit(n)] else ShowNat(n / 10) + [ShowDigit(n % 10)]
  }

  function ShowInt(n: int): string {
    if n < 0 then "-" + ShowNat(-n) else ShowNat(n)
  }

  function ShowVector<F>(codec: Codec<F>, vector: seq<F>): string {
    if vector == [] then "" else " " + codec.show(vector[0]) + ShowVector(codec, vector[1..])
  }

  function ShowMetric(m: Metric): string {
    if m == L2 then "L2" else "COSINE"
  }

  /** A field of a line: a blank, the field, the rest. */
  function Field(w: string, rest: string): string {
    " " + w + rest
  }

  function ShowConfig<F>(codec: Codec<F>, config: TableConfig<F>): string {
    match config
    case HnswTable(dim, m, m0, ef, ml, metric, cacheSize) =>
      Field(ShowInt(dim), Field(ShowNat(m), Field(ShowNat(m0), Field(ShowNat(ef),
        Field(codec.show(ml), Field(ShowMetric(metric), Field(ShowNat(cacheSize), "")))))))
    case FlatTable(dim, metric, cacheSize) =>
      Field(ShowInt(dim), Field(ShowMetric(metric), Field(ShowNat(cacheSize), "")))
  }

  /** One line of the log, without its line end. */
  function ShowEntry<F>(codec: Codec<F>, e: Entry<F>): string {
    match e
    case Insert(id, vector, content) => "insert" + Field(ShowNat(id), ShowVector(codec, vector) + " | " + content)
    case Remove(id) => "remove" + Field(ShowNat(id), "")
    case Create(config) => "create" + ShowConfig(codec, config)
    case Drop => "drop"
  }

  function ShowLog<F>(codec: Codec<F>, log: seq<Entry<F>>): string {
    if log == [] then "" else ShowEntry(codec, log[0]) + "\n" + ShowLog(codec, log[1..])
  }

  // ----- parsing

  /** `while (stream >> value)`. */
  function ReadVector<F>(codec: Codec<F>, s: string): (seq<F>, string)
    decreases |s|
  {
    var (v, rest) := ReadFloat(codec, s);
    SkipShrinks(s);
    if v == None || |rest| >= |s| then ([], rest)
    else
      var (more, end) := ReadVector(codec, rest);
      ([v.value] + more, end)
  }

  lemma SkipShrinks(s: string)
    ensures |SkipSpace(s)| <= |s|
  {}

  function ParseInsert<F>(codec: Codec<F>, s: string): Entry<F> {
    var id := ReadNat(s, WORD);
    var (vector, rest) := if id.ok then ReadVector(codec, id.rest) else ([], id.rest);
    var content := SkipSpace(rest);
    Insert(id.value, vector, if "| " <= content then content[2..] else content)
  }

  function ParseMetric(s: string): Metric {
    if s == "L2" then L2 else Cosine
  }

  function ParseFlat<F>(s: string): Option<TableConfig<F>> {
    var dim := ReadInt(s, INT);
    var metric := ReadWord(dim.rest);
    var cacheSize := ReadNat(metric.rest, WORD);
    if dim.ok && metric.ok && cacheSize.ok then
      Some(FlatTable(dim.value, ParseMetric(metric.value), cacheSize.value))
    else None
  }

  function ParseHnsw<F>(codec: Codec<F>, s: string): Option<TableConfig<F>> {
    var dim := ReadInt(s, INT);
    var m := ReadNat(dim.rest, WORD);
    var m0 := ReadNat(m.rest, WORD);
    var ef := ReadNat(m0.rest, WORD);
    var (ml, rest) := ReadFloat(codec, ef.rest);
    var metric := ReadWord(rest);
    var cacheSize := ReadNat(metric.rest, WORD);
    if dim.ok && m.ok && m0.ok && ef.ok && ml.Some? && metric.ok && cacheSize.ok then
      Some(HnswTable(dim.value, m.value, m0.value, ef.value, ml.value, ParseMetric(metric.value), cacheSize.value))
    else None
  }

  /** The fields of a creation; a line cut short or garbled gives `None`, since the program then goes on
      with indeterminate values. */
  function ParseCreate<F>(codec: Codec<F>, hnsw: bool, s: string): Option<Entry<F>> {
    match (if hnsw then ParseHnsw(codec, s) else ParseFlat(s))
    case Some(config) => Some(Create(config))
    case None => None
  }

  /** An unknown command leaves the entry at its defaults, which is an insertion of nothing at id 0. */
  function ParseEntry<F>(codec: Codec<F>, hnsw: bool, line: string): Option<Entry<F>> {
    var command := ReadWord(line);
    if command.value == "insert" then Some(ParseInsert(codec, command.rest))
    else if command.value == "remove" then Some(Remove(ReadNat(command.rest, WORD).value))
    else if command.value == "create" then ParseCreate(codec, hnsw, command.rest)
    else if command.value == "drop" then Some(Drop)
    else Some(Insert(0, [], ""))
  }

  function LineSpan(s: string): (n: nat)
    ensures n <= |s| && (n < |s| ==> s[n] == '\n')
    ensures forall i :: 0 <= i < n ==> s[i] != '\n'
  {
    if s == "" || s[0] == '\n' then 0 else 1 + LineSpan(s[1..])
  }

  /** What is left after one `getline`. */
  function AfterLine(s: string): string {
    if LineSpan(s) < |s| then s[LineSpan(s) + 1..] else ""
  }

  function ParseLog<F>(codec: Codec<F>, hnsw: bool, s: string): seq<Option<Entry<F>>>
    decreases |s|
  {
    if s == "" then []
    else [ParseEntry(codec, hnsw, s[..LineSpan(s)])] + ParseLog(codec, hnsw, AfterLine(s))
  }
}
