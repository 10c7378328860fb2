/**
 * What the driven oracles share: the process under test, whose output is one text that it and its
 * driver both print to, the sentinel lines read back from the end of that text, and the graded
 * checks. The driver's own lines are proved to be read back as what they report.
 */
module ImportDriver {
  import opened Decimals
  import opened Options
  import opened PyText

  /** A JSON value: a number, or anything else by its text. */
  datatype Value = Number(n: real) | Other(text: string)

  const NULL := Other("null")

  /** How one call ends. */
  datatype Outcome = Returned(value: Value) | Raised(exception: string)

  datatype Check = ReturnsEquals(id: string, expected: Value) | Raises(id: string, exception: string)

  // ---------------------------------------------------------------- names

  predicate IsLetter(c: char) { 'a' <= c <= 'z' || 'A' <= c <= 'Z' || c == '_' }

  predicate IsIdChar(c: char) { IsLetter(c) || IsDigit(c) }

  predicate IsNameChar(c: char) { IsIdChar(c) || c == '.' }

  predicate IdChars(s: string) { forall i :: 0 <= i < |s| ==> IsIdChar(s[i]) }

  predicate NameChars(s: string) { forall i :: 0 <= i < |s| ==> IsNameChar(s[i]) }

  predicate IsWord(s: string) { s != [] && IsLetter(s[0]) && IdChars(s) }

  /** Ids consist of letters, digits and `_`; the names of exceptions may have dots as well. */
  lemma NameCharsAre(s: string)
    ensures IdChars(s) <==>
            forall i :: 0 <= i < |s| ==> 'a' <= s[i] <= 'z' || 'A' <= s[i] <= 'Z' || s[i] == '_' || '0' <= s[i] <= '9'
    ensures NameChars(s) <==>
            forall i :: 0 <= i < |s| ==> 'a' <= s[i] <= 'z' || 'A' <= s[i] <= 'Z' || s[i] == '_' || '0' <= s[i] <= '9' || s[i] == '.'
  {
    if forall i :: 0 <= i < |s| ==> 'a' <= s[i] <= 'z' || 'A' <= s[i] <= 'Z' || s[i] == '_' || '0' <= s[i] <= '9' {
      assert forall i :: 0 <= i < |s| ==> IsIdChar(s[i]);
    }
    if forall i :: 0 <= i < |s| ==> 'a' <= s[i] <= 'z' || 'A' <= s[i] <= 'Z' || s[i] == '_' || '0' <= s[i] <= '9' || s[i] == '.' {
      assert forall i :: 0 <= i < |s| ==> IsNameChar(s[i]);
    }
  }

  /** The source's pattern ends in `$`, which lets one final line feed through. */
  predicate IsIdentifier(s: string) {
    IsWord(s) || (s != [] && s[|s| - 1] == '\n' && IsWord(s[..|s| - 1]))
  }

  /** A letter or underscore, then letters, digits and underscores, and perhaps one line feed. */
  lemma IdentifierIs(s: string)
    ensures IsIdentifier(s) ==> IsWordUpTo(s, |s|) || (s[|s| - 1] == '\n' && IsWordUpTo(s, |s| - 1))
    ensures |s| > 0 && (IsWordUpTo(s, |s|) || (s[|s| - 1] == '\n' && IsWordUpTo(s, |s| - 1))) ==> IsIdentifier(s)
  {
    WordUpTo(s, |s|);
    assert s[..|s|] == s;
    if |s| > 0 { WordUpTo(s, |s| - 1); }
  }

  ghost predicate IsWordUpTo(s: string, n: int) {
    && 1 <= n <= |s| && ('a' <= s[0] <= 'z' || 'A' <= s[0] <= 'Z' || s[0] == '_')
    && forall i :: 0 <= i < n ==> 'a' <= s[i] <= 'z' || 'A' <= s[i] <= 'Z' || s[i] == '_' || '0' <= s[i] <= '9'
  }

  lemma WordUpTo(s: string, n: nat)
    requires n <= |s|
    ensures IsWord(s[..n]) <==> IsWordUpTo(s, n)
  {
    forall i | 0 <= i < n ensures s[..n][i] == s[i] {
    }
    if IsWord(s[..n]) {
      assert forall i :: 0 <= i < n ==> IsIdChar(s[..n][i]);
    }
  }

  /** An exception name that its report spells unambiguously: reports separate id and name by two
      underscores, and the last such place that leaves a name is taken. */
  predicate PlainException(x: string) {
    && x != "" && NameChars(x) && (|x| > 1 ==> x[0] != '_')
    && forall i :: 0 <= i < |x| - 2 ==> !(x[i] == '_' && x[i + 1] == '_')
  }

  // ---------------------------------------------------------------- sentinel lines

  const RESULT := "__JAROS_RESULT__"
  const RAISED := "__JAROS_RAISED__"
  const IMPORT_ERROR := "__JAROS_IMPORT_ERROR__"
  const END := "__END__"

  /** The JSON encoder of the driver and the decoder of the oracle. */
  datatype Codec = Codec(dumps: Value -> string, loads: string -> Value)

  /** An encoding on one line whose leading run of id characters holds no double underscore: JSON
      texts with more than letters and digits start with a quote, a bracket or a sign. */
  predicate JsonLike(payload: string) {
    && OneLine(payload) && payload != "" && payload[0] != '_'
    && forall i :: 0 <= i < |payload| - 1 && payload[i] == '_' && payload[i + 1] == '_' ==> !IdChars(payload[..i])
  }

  /** The encoding brings this value through. */
  predicate FaithfulTo(codec: Codec, v: Value) {
    codec.loads(codec.dumps(v)) == v && JsonLike(codec.dumps(v))
  }

  datatype Sentinel = Result(id: string, payload: string) | Raise(id: string, name: string) | ImportError | Noise

  /** The body of a sentinel can be split at `p` into an id and what follows two underscores; in a
      report of an exception that has to be a name. */
  predicate SplitsAt(body: string, p: nat, named: bool) {
    && 1 <= p && p + 2 <= |body| && IdChars(body[..p]) && body[p] == '_' && body[p + 1] == '_'
    && (named ==> body[p + 2..] != "" && NameChars(body[p + 2..]))
  }

  /** The greedy split: the last one up to `p`. */
  function LastSplit(body: string, p: nat, named: bool): Option<nat> {
    if SplitsAt(body, p, named) then Some(p)
    else if p == 0 then None
    else LastSplit(body, p - 1, named)
  }

  predicate ImportSplitsAt(body: string, p: nat) {
    p + 2 <= |body| && NameChars(body[..p]) && body[p] == '_' && body[p + 1] == '_'
  }

  predicate IsImportError(line: string) {
    var body := Between(line, IMPORT_ERROR, END);
    body.Some? && exists p :: 0 <= p <= |body.value| && ImportSplitsAt(body.value, p)
  }

  function SplitOf(body: string, named: bool): Option<(string, string)> {
    var p := LastSplit(body, |body|, named);
    if p.None? || p.value + 2 > |body| then None else Some((body[..p.value], body[p.value + 2..]))
  }

  function SplitBody(line: string, prefix: string, named: bool): Option<(string, string)> {
    var body := Between(line, prefix, END);
    if body.None? then None else SplitOf(body.value, named)
  }

  /** What a stripped line is to the parser. */
  function Classify(line: string): Sentinel {
    if IsImportError(line) then ImportError
    else
      var result, raised := SplitBody(line, RESULT, false), SplitBody(line, RAISED, true);
      if result.Some? then Result(result.value.0, result.value.1)
      else if raised.Some? then Raise(raised.value.0, raised.value.1)
      else Noise
  }

  lemma {:induction false} LastSplitIs(body: string, p: nat, named: bool)
    ensures match LastSplit(body, p, named)
            case Some(q) => q <= p && SplitsAt(body, q, named) && forall k :: q < k <= p ==> !SplitsAt(body, k, named)
            case None => forall k :: 0 <= k <= p ==> !SplitsAt(body, k, named)
  {
    if !SplitsAt(body, p, named) && p > 0 { LastSplitIs(body, p - 1, named); }
  }

  // ---------------------------------------------------------------- an encoding of any values

  /** Names for the values of a table: quoted positions. */
  function Quoted(k: nat): string { "\"" + Decimal(k) + "\"" }

  function Position(values: seq<Value>, v: Value): nat {
    if values == [] || values[|values| - 1] == v then |values| else Position(values[..|values| - 1], v)
  }

  function Named(values: seq<Value>, text: string): Value {
    if values == [] then NULL
    else if Quoted(|values|) == text then values[|values| - 1]
    else Named(values[..|values| - 1], text)
  }

  function TableCodec(values: seq<Value>): Codec {
    Codec(v => Quoted(Position(values, v)), text => Named(values, text))
  }

  lemma QuotedInjective(j: nat, k: nat)
    requires Quoted(j) == Quoted(k)
    ensures j == k
  {
    assert Quoted(j)[1..|Quoted(j)| - 1] == Decimal(j) && Quoted(k)[1..|Quoted(k)| - 1] == Decimal(k);
    DecimalInjective(j, k);
  }

  lemma {:induction false} NamedAtPosition(values: seq<Value>, v: Value)
    requires v in values
    ensures Position(values, v) <= |values| && Named(values, Quoted(Position(values, v))) == v
  {
    var init := values[..|values| - 1];
    if values[|values| - 1] != v {
      NamedAtPosition(init, v);
      if Quoted(|values|) == Quoted(Position(init, v)) { QuotedInjective(|values|, Position(init, v)); }
    }
  }

  lemma QuotedJsonLike(k: nat)
    ensures JsonLike(Quoted(k))
  {
    var payload, digits := Quoted(k), Decimal(k);
    forall i | 0 <= i < |payload| ensures !IsBreak(payload[i]) && payload[i] != '_' {
      if 0 < i < |payload| - 1 { assert payload[i] == digits[i - 1]; }
    }
  }

  /** For any finitely many values there is an encoding that brings them through. */
  lemma TableCodecFaithful(values: seq<Value>, v: Value)
    requires v in values
    ensures FaithfulTo(TableCodec(values), v)
  {
    NamedAtPosition(values, v);
    QuotedJsonLike(Position(values, v));
  }

  // ---------------------------------------------------------------- reading the output

  datatype Report = Report(results: map<string, Value>, raised: map<string, string>, importError: bool)

  const NOTHING := Report(map[], map[], false)

  function Absorb(codec: Codec, r: Report, line: string): Report {
    match Classify(Strip(line))
    case Result(id, payload) => r.(results := r.results[id := codec.loads(payload)])
    case Raise(id, name) => r.(raised := r.raised[id := name])
    case ImportError => r.(importError := true)
    case Noise => r
  }

  function AbsorbLines(codec: Codec, r: Report, lines: seq<string>): Report {
    if lines == [] then r else Absorb(codec, AbsorbLines(codec, r, lines[..|lines| - 1]), lines[|lines| - 1])
  }

  function AbsorbText(codec: Codec, r: Report, text: string): Report {
    AbsorbLines(codec, r, Lines(text))
  }

  const OUTPUT_LIMIT := 1_000_000

  /** What is read back of an output: its last lines, later ones overriding earlier ones. */
  function Parsed(codec: Codec, stdout: string): Report {
    AbsorbText(codec, NOTHING, Tail(stdout, OUTPUT_LIMIT))
  }

  method ParseSentinels(codec: Codec, stdout: string) returns (report: Report)
    ensures report == Parsed(codec, stdout)
    ensures report == AbsorbLines(codec, NOTHING, Lines(if |stdout| <= 1_000_000 then stdout else stdout[|stdout| - 1_000_000..]))
  {
    var lines := Lines(Tail(stdout, OUTPUT_LIMIT));
    report := NOTHING;
    for i := 0 to |lines|
      invariant report == AbsorbLines(codec, NOTHING, lines[..i])
    {
      assert lines[..i + 1][..i] == lines[..i];
      report := Absorb(codec, report, lines[i]);
    }
    assert lines[..|lines|] == lines;
  }

  lemma {:induction false} AbsorbLinesConcat(codec: Codec, r: Report, a: seq<string>, b: seq<string>)
    ensures AbsorbLines(codec, r, a + b) == AbsorbLines(codec, AbsorbLines(codec, r, a), b)
  {
    if b == [] {
      assert a + b == a;
    } else {
      assert (a + b)[..|a + b| - 1] == a + b[..|b| - 1];
      AbsorbLinesConcat(codec, r, a, b[..|b| - 1]);
    }
  }

  lemma AbsorbTextConcat(codec: Codec, r: Report, a: string, b: string)
    requires WholeLines(a)
    ensures AbsorbText(codec, r, a + b) == AbsorbText(codec, AbsorbText(codec, r, a), b)
  {
    LinesConcat(a, b);
    AbsorbLinesConcat(codec, r, Lines(a), Lines(b));
  }

  ghost predicate ResultLine(codec: Codec, line: string, id: string, v: Value) {
    var sentinel := Classify(Strip(line));
    sentinel.Result? && sentinel.id == id && codec.loads(sentinel.payload) == v
  }

  ghost predicate RaiseLine(line: string, id: string, x: string) {
    Classify(Strip(line)) == Raise(id, x)
  }

  /** What is read back under an id comes from some line for that id. */
  lemma {:induction false} ReadFromLine(codec: Codec, lines: seq<string>, id: string)
    ensures var r := AbsorbLines(codec, NOTHING, lines);
            && (id in r.results ==> exists line :: line in lines && ResultLine(codec, line, id, r.results[id]))
            && (id in r.raised ==> exists line :: line in lines && RaiseLine(line, id, r.raised[id]))
  {
    if lines != [] {
      var init, last := lines[..|lines| - 1], lines[|lines| - 1];
      var before, r := AbsorbLines(codec, NOTHING, init), AbsorbLines(codec, NOTHING, lines);
      ReadFromLine(codec, init, id);
      assert last in lines && forall line :: line in init ==> line in lines;
      AbsorbedFrom(codec, before, last, id);
    }
  }

  lemma AbsorbedFrom(codec: Codec, before: Report, line: string, id: string)
    ensures var r := Absorb(codec, before, line);
            && (id in r.results ==> ResultLine(codec, line, id, r.results[id]) || (id in before.results && r.results[id] == before.results[id]))
            && (id in r.raised ==> RaiseLine(line, id, r.raised[id]) || (id in before.raised && r.raised[id] == before.raised[id]))
  {
  }

  /** What is left of a report that is longer than what is read back: unless the cut falls before an
      underscore or a space, nothing is recognised in it. */
  lemma CutReportLost(codec: Codec, before: string, rest: string)
    requires rest != "" && OneLine(rest) && rest[0] != '_' && !IsSpace(rest[0])
    requires |rest + END + "\n"| == OUTPUT_LIMIT
    ensures Parsed(codec, before + (rest + END + "\n")) == NOTHING
  {
    var line := rest + END;
    assert Tail(before + (line + "\n"), OUTPUT_LIMIT) == line + "\n";
    assert OneLine(END);
    SingleLine(line);
    AbsorbOne(codec, NOTHING, line);
    assert line[0] == rest[0] && line[|line| - 1] == END[6];
    StripKeeps(line);
    assert RESULT[0] == '_' && RAISED[0] == '_' && IMPORT_ERROR[0] == '_';
  }

  // ---------------------------------------------------------------- what no line can report

  /** An id, and an exception name, that some line can report. */
  predicate IdReported(id: string) { id != "" && IdChars(id) }

  predicate NameReported(x: string) { NameChars(x) && (IdChars(x) ==> PlainException(x)) }

  /** However a report is written, its id has only id characters, and a name made of them is plain. */
  lemma SplitParts(body: string, named: bool)
    ensures var split := SplitOf(body, named);
            split.Some? ==> IdReported(split.value.0) && (named ==> NameReported(split.value.1))
  {
    LastSplitIs(body, |body|, named);
    var p := LastSplit(body, |body|, named);
    if p.Some? && named && IdChars(body[p.value + 2..]) { GreedyNameIsPlain(body, p.value); }
  }

  lemma GreedyNameIsPlain(body: string, p: nat)
    requires SplitsAt(body, p, true) && IdChars(body[p + 2..])
    requires forall k :: p < k <= |body| ==> !SplitsAt(body, k, true)
    ensures PlainException(body[p + 2..])
  {
    var x := body[p + 2..];
    if |x| > 1 && x[0] == '_' {
      LaterName(body, p, p + 1);
    }
    forall i | 0 <= i < |x| - 2 ensures !(x[i] == '_' && x[i + 1] == '_') {
      if x[i] == '_' && x[i + 1] == '_' { LaterName(body, p, p + 2 + i); }
    }
  }

  lemma LaterName(body: string, p: nat, k: nat)
    requires SplitsAt(body, p, true) && IdChars(body[p + 2..])
    requires p < k && k + 2 < |body| && body[k] == '_' && body[k + 1] == '_'
    ensures SplitsAt(body, k, true)
  {
    var x := body[p + 2..];
    forall i | 0 <= i < |body| ensures IsIdChar(body[i]) {
      if i < p { assert body[i] == body[..p][i]; } else if i >= p + 2 { assert body[i] == x[i - p - 2]; }
    }
  }

  ghost predicate Reported(r: Report) {
    && (forall id :: id in r.results ==> IdReported(id))
    && (forall id :: id in r.raised ==> IdReported(id) && NameReported(r.raised[id]))
  }

  lemma ClassifiedReported(codec: Codec, r: Report, line: string)
    requires Reported(r)
    ensures Reported(Absorb(codec, r, line))
  {
    var stripped := Strip(line);
    var result, raised := Between(stripped, RESULT, END), Between(stripped, RAISED, END);
    if result.Some? { SplitParts(result.value, false); }
    if raised.Some? { SplitParts(raised.value, true); }
  }

  lemma {:induction false} LinesReported(codec: Codec, lines: seq<string>)
    ensures Reported(AbsorbLines(codec, NOTHING, lines))
  {
    if lines != [] {
      LinesReported(codec, lines[..|lines| - 1]);
      ClassifiedReported(codec, AbsorbLines(codec, NOTHING, lines[..|lines| - 1]), lines[|lines| - 1]);
    }
  }

  lemma ReportedIdentifier(x: string)
    requires IsIdentifier(x) && NameReported(x)
    ensures PlainException(x)
  {
    assert IsNameChar(x[|x| - 1]);
  }

  /** Whatever an output is, a check can only hold of it when its id, and the identifier it expects
      to be raised, can be reported. */
  lemma HeldIsReportable(codec: Codec, stdout: string, c: Check)
    requires Holds(c, Parsed(codec, stdout))
    ensures IdReported(c.id) && (c.Raises? ==> NameReported(c.exception))
  {
    LinesReported(codec, Lines(Tail(stdout, OUTPUT_LIMIT)));
  }

  // ---------------------------------------------------------------- checks

  /** A check holds when its call was reported in the expected way, and in no other. */
  predicate Holds(check: Check, r: Report) {
    match check
    case ReturnsEquals(id, expected) => id !in r.raised && id in r.results && r.results[id] == expected
    case Raises(id, exception) => id !in r.results && id in r.raised && r.raised[id] == exception
  }

  /** A value is to be reported, and no exception; or an exception, and no value. */
  lemma HoldsIs(id: string, expected: Value, exception: string, r: Report)
    ensures Holds(ReturnsEquals(id, expected), r) <==> id in r.results && r.results[id] == expected && id !in r.raised
    ensures Holds(Raises(id, exception), r) <==> id in r.raised && r.raised[id] == exception && id !in r.results
  {
  }

  predicate AllHold(checks: seq<Check>, r: Report) {
    forall c :: c in checks ==> Holds(c, r)
  }

  /** The verdict on an output: the module was imported and every check holds. */
  predicate Passed(checks: seq<Check>, r: Report) {
    !r.importError && AllHold(checks, r)
  }

  method EvalChecks(checks: seq<Check>, report: Report) returns (ok: bool)
    ensures ok <==> Passed(checks, report)
    ensures ok <==> !report.importError && forall c :: c in checks ==> Holds(c, report)
  {
    ok := !report.importError;
    for i := 0 to |checks|
      invariant ok <==> !report.importError && forall j :: 0 <= j < i ==> Holds(checks[j], report)
    {
      if !Holds(checks[i], report) { ok := false; }
    }
  }

  /** The report of a module that cannot be imported. */
  ghost predicate ReportsImportError(line: string) {
    exists name, message :: NameChars(name) && line == "__JAROS_IMPORT_ERROR__" + (name + "__" + message) + "__END__"
  }

  lemma ImportErrorIs(line: string)
    ensures IsImportError(line) <==> ReportsImportError(line)
  {
    if ReportsImportError(line) {
      var name, message :| NameChars(name) && line == "__JAROS_IMPORT_ERROR__" + (name + "__" + message) + "__END__";
      MadeImportError(line, name, message);
    }
    if IsImportError(line) { ReadImportError(line, Between(line, IMPORT_ERROR, END).value); }
  }

  lemma MadeImportError(line: string, name: string, message: string)
    requires NameChars(name) && line == IMPORT_ERROR + (name + "__" + message) + END
    ensures IsImportError(line)
  {
    var body := name + "__" + message;
    BetweenOf(IMPORT_ERROR, body, END);
    assert body[..|name|] == name && ImportSplitsAt(body, |name|);
  }

  lemma ReadImportError(line: string, body: string)
    requires Between(line, IMPORT_ERROR, END) == Some(body)
    requires exists p :: 0 <= p <= |body| && ImportSplitsAt(body, p)
    ensures ReportsImportError(line)
  {
    var p :| 0 <= p <= |body| && ImportSplitsAt(body, p);
    assert body == body[..p] + "__" + body[p + 2..];
    AroundBetween(line, IMPORT_ERROR, body, END);
  }

  lemma ImportErrorAbsorbed(codec: Codec, r: Report, line: string)
    ensures Absorb(codec, r, line).importError <==> r.importError || ReportsImportError(Strip(line))
  {
    ImportErrorIs(Strip(line));
  }

  lemma {:induction false} ImportErrorRead(codec: Codec, lines: seq<string>, i: nat)
    requires i < |lines| && ReportsImportError(Strip(lines[i]))
    ensures AbsorbLines(codec, NOTHING, lines).importError
  {
    var init := lines[..|lines| - 1];
    if i < |init| { ImportErrorRead(codec, init, i); }
    ImportErrorAbsorbed(codec, AbsorbLines(codec, NOTHING, init), lines[|lines| - 1]);
  }

  lemma {:induction false} NoImportErrorRead(codec: Codec, lines: seq<string>)
    requires forall i :: 0 <= i < |lines| ==> !ReportsImportError(Strip(lines[i]))
    ensures !AbsorbLines(codec, NOTHING, lines).importError
  {
    if lines != [] {
      NoImportErrorRead(codec, lines[..|lines| - 1]);
      ImportErrorAbsorbed(codec, AbsorbLines(codec, NOTHING, lines[..|lines| - 1]), lines[|lines| - 1]);
    }
  }

  /** A module that is reported not to be importable passes nothing, whatever else is read. */
  lemma ImportErrorFails(codec: Codec, stdout: string, checks: seq<Check>, i: nat)
    requires i < |Lines(Tail(stdout, OUTPUT_LIMIT))| && ReportsImportError(Strip(Lines(Tail(stdout, OUTPUT_LIMIT))[i]))
    ensures !Passed(checks, Parsed(codec, stdout))
  {
    ImportErrorRead(codec, Lines(Tail(stdout, OUTPUT_LIMIT)), i);
  }

  // ---------------------------------------------------------------- the driver's own lines

  /** What the driver prints for a call; nothing when it is not made. */
  function Printed(codec: Codec, id: string, outcome: Option<Outcome>): string {
    match outcome
    case None => ""
    case Some(Returned(v)) => RESULT + (id + "__" + codec.dumps(v)) + END + "\n"
    case Some(Raised(x)) => RAISED + (id + "__" + x) + END + "\n"
  }

  lemma NoLaterResultSplit(id: string, payload: string, k: nat)
    requires JsonLike(payload) && k > |id|
    ensures !SplitsAt(id + "__" + payload, k, false)
  {
    var body := id + "__" + payload;
    if k == |id| + 1 {
      assert k + 2 <= |body| ==> body[k + 1] == payload[0];
    } else if k + 2 <= |body| {
      var i := k - |id| - 2;
      assert body[k] == payload[i] && body[k + 1] == payload[i + 1];
      if IdChars(body[..k]) {
        assert forall j :: 0 <= j < i ==> payload[..i][j] == body[..k][|id| + 2 + j];
      }
    }
  }

  lemma ResultSplit(id: string, payload: string)
    requires id != "" && IdChars(id) && JsonLike(payload)
    ensures SplitOf(id + "__" + payload, false) == Some((id, payload))
  {
    var body := id + "__" + payload;
    LastSplitIs(body, |body|, false);
    assert body[..|id|] == id && body[|id| + 2..] == payload && SplitsAt(body, |id|, false);
    forall k | |id| < k <= |body| ensures !SplitsAt(body, k, false) {
      NoLaterResultSplit(id, payload, k);
    }
  }

  lemma RaiseSplit(id: string, x: string)
    requires id != "" && IdChars(id) && PlainException(x)
    ensures SplitOf(id + "__" + x, true) == Some((id, x))
  {
    var body := id + "__" + x;
    LastSplitIs(body, |body|, true);
    assert body[..|id|] == id && body[|id| + 2..] == x && SplitsAt(body, |id|, true);
    forall k | |id| < k <= |body| ensures !SplitsAt(body, k, true) {
      if k == |id| + 1 {
        assert k + 2 <= |body| ==> body[k + 1] == x[0];
      } else if k + 2 <= |body| {
        assert body[k] == x[k - |id| - 2] && body[k + 1] == x[k - |id| - 1];
      }
    }
  }

  /** Which of the three prefixes a line has. */
  lemma PrefixesDiffer(rest: string)
    ensures !IsImportError(RESULT + rest) && !IsImportError(RAISED + rest)
    ensures SplitBody(RAISED + rest, RESULT, false) == None && SplitBody(RESULT + rest, RAISED, true) == None
  {
    var result, raised := RESULT + rest, RAISED + rest;
    assert result[8] == 'R' && raised[8] == 'R' && IMPORT_ERROR[8] == 'I';
    assert result[9] == 'E' && raised[9] == 'A' && RESULT[9] == 'E' && RAISED[9] == 'A';
  }

  lemma SentinelStripped(prefix: string, body: string)
    requires prefix != "" && prefix[0] == '_'
    ensures Strip(prefix + body + END) == prefix + body + END
  {
    var line := prefix + body + END;
    assert line[0] == '_' && line[|line| - 1] == END[6];
    StripKeeps(line);
  }

  lemma SplitBodyOf(prefix: string, body: string, named: bool)
    ensures SplitBody(prefix + body + END, prefix, named) == SplitOf(body, named)
  {
    BetweenOf(prefix, body, END);
  }

  lemma ClassifiedResult(id: string, payload: string)
    requires id != "" && IdChars(id) && JsonLike(payload)
    ensures Classify(Strip(RESULT + (id + "__" + payload) + END)) == Result(id, payload)
  {
    var body := id + "__" + payload;
    SentinelStripped(RESULT, body);
    PrefixesDiffer(body + END);
    assert RESULT + (body + END) == RESULT + body + END;
    SplitBodyOf(RESULT, body, false);
    ResultSplit(id, payload);
  }

  lemma ClassifiedRaise(body: string)
    ensures Classify(Strip(RAISED + body + END)) ==
            var split := SplitOf(body, true); if split.Some? then Raise(split.value.0, split.value.1) else Noise
  {
    SentinelStripped(RAISED, body);
    PrefixesDiffer(body + END);
    assert RAISED + (body + END) == RAISED + body + END;
    SplitBodyOf(RAISED, body, true);
  }

  lemma OneLineParts(prefix: string, body: string)
    requires OneLine(prefix) && OneLine(body)
    ensures OneLine(prefix + body + END) && Lines(prefix + body + END + "\n") == [prefix + body + END]
  {
    assert OneLine(END);
    SingleLine(prefix + body + END);
  }

  lemma IdCharsOneLine(id: string)
    requires IdChars(id)
    ensures OneLine(id)
  {
  }

  lemma AbsorbOne(codec: Codec, r: Report, line: string)
    ensures AbsorbLines(codec, r, [line]) == Absorb(codec, r, line)
  {
    assert [line][..0] == [];
  }

  /** A returned value is read back under its id. */
  lemma HeardResult(codec: Codec, r: Report, id: string, v: Value)
    requires FaithfulTo(codec, v) && id != "" && IdChars(id)
    ensures AbsorbText(codec, r, Printed(codec, id, Some(Returned(v)))) == r.(results := r.results[id := v])
  {
    var payload := codec.dumps(v);
    IdCharsOneLine(id);
    OneLineParts(RESULT, id + "__" + payload);
    AbsorbOne(codec, r, RESULT + (id + "__" + payload) + END);
    ClassifiedResult(id, payload);
  }

  /** A plain exception name is read back under its id. */
  lemma HeardRaise(codec: Codec, r: Report, id: string, x: string)
    requires id != "" && IdChars(id) && PlainException(x)
    ensures AbsorbText(codec, r, Printed(codec, id, Some(Raised(x)))) == r.(raised := r.raised[id := x])
  {
    var body := id + "__" + x;
    IdCharsOneLine(id);
    OneLineParts(RAISED, body);
    AbsorbOne(codec, r, RAISED + body + END);
    ClassifiedRaise(body);
    RaiseSplit(id, x);
  }

  ghost predicate HeardUnder(r: Report, after: Report, id: string, name: string) {
    after == r.(raised := r.raised[id := name])
  }

  /** What is read back of an exception: it under its id, or something under a longer id, which
      has an underscore, or nothing. */
  ghost predicate HeardAs(r: Report, after: Report, id: string, x: string) {
    after == r || HeardUnder(r, after, id, x) || exists other, name :: '_' in other && HeardUnder(r, after, other, name)
  }

  lemma HeardSomehow(codec: Codec, r: Report, id: string, x: string)
    requires id != "" && IdChars(id) && OneLine(x) && x != ""
    ensures HeardAs(r, AbsorbText(codec, r, Printed(codec, id, Some(Raised(x)))), id, x)
  {
    var body := id + "__" + x;
    IdCharsOneLine(id);
    OneLineParts(RAISED, body);
    AbsorbOne(codec, r, RAISED + body + END);
    ClassifiedRaise(body);
    var split := SplitOf(body, true);
    if split.Some? {
      SplitWhere(id, x);
      assert HeardUnder(r, Absorb(codec, r, RAISED + body + END), split.value.0, split.value.1);
    }
  }

  /** If such a report can be split inside its id, then also behind it. */
  lemma LaterSplit(id: string, x: string, p: nat)
    requires IdChars(id) && x != "" && p < |id| && SplitsAt(id + "__" + x, p, true)
    ensures SplitsAt(id + "__" + x, |id|, true)
  {
    var body := id + "__" + x;
    assert body[..|id|] == id && body[|id| + 2..] == x;
    assert forall i :: 0 <= i < |x| ==> x[i] == body[p + 2..][|id| + i - p];
  }

  /** Where a report of an exception is split: at its id or behind it. */
  lemma SplitWhere(id: string, x: string)
    requires id != "" && IdChars(id) && x != ""
    ensures var split := SplitOf(id + "__" + x, true);
            split.Some? ==> split.value == (id, x) || '_' in split.value.0
  {
    var body := id + "__" + x;
    LastSplitIs(body, |body|, true);
    assert body[..|id|] == id && body[|id| + 2..] == x;
    var p := LastSplit(body, |body|, true);
    if p.Some? {
      if p.value < |id| {
        LaterSplit(id, x, p.value);
      } else if p.value > |id| {
        assert body[..p.value][|id|] == '_';
      }
    }
  }
}
