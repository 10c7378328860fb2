/** The text side of the agent protocol: the final-answer sentinel line and the tool routes. */
module AgentText {
  import opened Options
  import opened PyText

  const PREFIX := "__JAROS_AGENT_FINAL__"
  const SUFFIX := "__END__"
  const TAIL_LIMIT := 200_000

  /** The payload of a sentinel line. */
  function Payload(line: string): Option<string> {
    Between(line, PREFIX, SUFFIX)
  }

  function Later(earlier: Option<string>, later: Option<string>): Option<string> {
    if later.Some? then later else earlier
  }

  /** The payload of the last sentinel line. */
  function LastPayload(lines: seq<string>): Option<string> {
    if lines == [] then None
    else Later(LastPayload(lines[..|lines| - 1]), Payload(Strip(lines[|lines| - 1])))
  }

  /** What the agent prints for a final answer. */
  function Printed(text: string): string {
    PREFIX + text + SUFFIX + "\n"
  }

  /** What the drive reads back when the agent printed this final answer. */
  function ReadBack(text: string): Option<string> {
    LastPayload(Lines(Tail(Printed(text), TAIL_LIMIT)))
  }

  method ParseFinal(stdout: string) returns (final: Option<string>)
    ensures final == LastPayload(Lines(if |stdout| <= 200_000 then stdout else stdout[|stdout| - 200_000..]))
  {
    var lines := Lines(Tail(stdout, TAIL_LIMIT));
    final := None;
    for i := 0 to |lines|
      invariant final == LastPayload(lines[..i])
    {
      assert lines[..i + 1][..i] == lines[..i];
      final := Later(final, Payload(Strip(lines[i])));
    }
    assert lines[..|lines|] == lines;
  }

  /** A sentinel line is its payload between the two marks. */
  lemma PayloadIs(line: string, text: string)
    ensures Payload(line) == Some(text) <==> line == PREFIX + text + SUFFIX
  {
    BetweenOf(PREFIX, text, SUFFIX);
    if Payload(line) == Some(text) {
      assert line == line[..|PREFIX|] + line[|PREFIX|..|line| - |SUFFIX|] + line[|line| - |SUFFIX|..];
    }
  }

  /** Later sentinel lines override earlier ones. */
  lemma {:induction false} LastPayloadIsLast(lines: seq<string>, k: nat)
    requires k < |lines| && Payload(Strip(lines[k])).Some?
    requires forall j :: k < j < |lines| ==> Payload(Strip(lines[j])).None?
    ensures LastPayload(lines) == Payload(Strip(lines[k]))
  {
    if k < |lines| - 1 { LastPayloadIsLast(lines[..|lines| - 1], k); }
  }

  lemma {:induction false} LastPayloadFrom(lines: seq<string>)
    requires LastPayload(lines).Some?
    ensures exists line :: line in lines && Payload(Strip(line)) == LastPayload(lines)
  {
    if Payload(Strip(lines[|lines| - 1])).None? {
      LastPayloadFrom(lines[..|lines| - 1]);
      var line :| line in lines[..|lines| - 1] && Payload(Strip(line)) == LastPayload(lines);
      assert line in lines;
    } else {
      assert lines[|lines| - 1] in lines;
    }
  }

  predicate FitsTail(text: string) {
    |PREFIX| + |text| + |SUFFIX| + 1 <= TAIL_LIMIT
  }

  lemma OneLineSurvives(text: string)
    requires OneLine(text) && FitsTail(text)
    ensures ReadBack(text) == Some(text)
  {
    var line := PREFIX + text + SUFFIX;
    assert OneLine(PREFIX) && OneLine(SUFFIX);
    SingleLine(line);
    assert Printed(text) == line + "\n";
    SentinelLine(text);
    assert [line][..0] == [];
  }

  lemma SentinelLine(text: string)
    ensures Payload(Strip(PREFIX + text + SUFFIX)) == Some(text)
  {
    var line := PREFIX + text + SUFFIX;
    assert line[0] == '_' && line[|line| - 1] == SUFFIX[|SUFFIX| - 1] == '_';
    StripKeeps(line);
    BetweenOf(PREFIX, text, SUFFIX);
  }

  lemma PayloadIsSlice(line: string)
    requires Payload(line).Some?
    ensures |Payload(line).value| + |PREFIX| + |SUFFIX| == |line|
    ensures OneLine(line) ==> OneLine(Payload(line).value)
  {
    var payload := Payload(line).value;
    assert forall i :: 0 <= i < |payload| ==> payload[i] == line[|PREFIX| + i];
  }

  /** Whatever is read back is a single line that fits. */
  lemma ReadBackIsOneLine(text: string, read: string)
    requires ReadBack(text) == Some(read)
    ensures OneLine(read) && FitsTail(read)
  {
    var out := Tail(Printed(text), TAIL_LIMIT);
    LastPayloadFrom(Lines(out));
    var line :| line in Lines(out) && Payload(Strip(line)) == Some(read);
    LinesAreLines(out, line);
    StripIsSlice(line);
    PayloadIsSlice(Strip(line));
    assert Printed(text)[|Printed(text)| - 1] == '\n';
    assert out[|out| - 1] == '\n' && IsBreak('\n');
  }

  /** The final answer survives the sentinel protocol iff it is a single line that fits in the part
      of the output that is read. */
  lemma FinalSurvivesIffOneLine(text: string)
    ensures ReadBack(text) == Some(text) <==> OneLine(text) && FitsTail(text)
  {
    if OneLine(text) && FitsTail(text) {
      OneLineSurvives(text);
    }
    if ReadBack(text) == Some(text) {
      ReadBackIsOneLine(text, text);
    }
  }

  // ---------------------------------------------------------------- tool routes

  datatype Route = Chat | Tool(name: string) | NotFound

  /** The URL without its fragment: `urllib` cuts at the last `#`. */
  function CutFragment(url: string): string {
    if '#' !in url then url
    else if url[|url| - 1] == '#' then url[..|url| - 1]
    else CutFragment(url[..|url| - 1])
  }

  /** It is cut at the last `#`, if there is one. */
  lemma {:induction false} CutFragmentAtLast(before: string, fragment: string)
    requires '#' !in fragment
    ensures CutFragment(before + "#" + fragment) == before
  {
    var url := before + "#" + fragment;
    assert url[|before|] == '#';
    if fragment != "" {
      assert url[..|url| - 1] == before + "#" + fragment[..|fragment| - 1];
      CutFragmentAtLast(before, fragment[..|fragment| - 1]);
    }
  }

  const LINE_LIMIT := 65_536

  /** What `http.client` sends and the stub's server reads as a request line: no blanks, control
      characters or non-ASCII characters, and no more than the limit with method and version. */
  predicate Sendable(path: string) {
    (forall i :: 0 <= i < |path| ==> '!' <= path[i] <= '~') &&
    |"POST "| + |path| + |" HTTP/1.1"| + 2 <= LINE_LIMIT
  }

  /** Printable ASCII without blanks, and with `POST` before and the version behind at most 65,536 long. */
  lemma SendableIs(path: string)
    ensures Sendable(path) <==> |path| + 16 <= 65_536 && forall i :: 0 <= i < |path| ==> '!' <= path[i] <= '~'
  {
  }

  /** The path the agent's client asks for: surrounding blanks and the fragment of the URL are
      dropped, and what cannot be sent raises. */
  function ClientPath(path: string): Option<string> {
    var sent := CutFragment(StripRight(path));
    if Sendable(sent) then Some(sent) else None
  }

  function BeforeQuery(path: string): string {
    if path == "" || path[0] == '?' then "" else [path[0]] + BeforeQuery(path[1..])
  }

  /** The stub cuts at the first `?`. */
  lemma BeforeQueryAtFirst(before: string, query: string)
    requires '?' !in before
    ensures BeforeQuery(before + ("?" + query)) == before
  {
    BeforeQueryConcat(before, "?" + query);
    assert before + "" == before;
  }

  function TrimSlashes(path: string): string {
    if path == "" || path[|path| - 1] != '/' then path else TrimSlashes(path[..|path| - 1])
  }

  const TOOL_ROOT := "/tool/"

  /** The route of a trimmed path: what follows the tool root, if anything does. */
  function TrimmedRoute(path: string): Route {
    if path == "/v1/chat/completions" || path == "/chat/completions" then Chat
    else if TOOL_ROOT <= path then Tool(path[|TOOL_ROOT|..])
    else NotFound
  }

  /** Two paths are the chat route, and anything behind the tool root is a tool. */
  lemma TrimmedRouteIs(path: string)
    ensures TrimmedRoute(path) == Chat <==> path == "/v1/chat/completions" || path == "/chat/completions"
    ensures TrimmedRoute(path).Tool? <==> "/tool/" <= path
    ensures "/tool/" <= path ==> TrimmedRoute(path) == Tool(path[6..])
  {
    assert "/v1/chat/completions"[1] == 'v' && "/chat/completions"[1] == 'c' && "/tool/"[1] == 't';
  }

  function RouteOf(requested: string): Route {
    TrimmedRoute(TrimSlashes(BeforeQuery(requested)))
  }

  /** The tool name a call arrives under: trimmed and cut by the client, cut at a `?` and trimmed of
      slashes by the stub. Nothing when the client refuses the URL or no route is left. */
  function RecordedName(name: string): Option<string> {
    var sent := CutFragment(StripRight(name));
    var recorded := TrimSlashes(BeforeQuery(sent));
    if Sendable(TOOL_ROOT + sent) && recorded != "" then Some(recorded) else None
  }

  /** A tool name that neither side cuts, trims or refuses. */
  predicate PlainName(name: string) {
    && name != "" && '#' !in name && '?' !in name && name[|name| - 1] != '/'
    && Sendable(TOOL_ROOT + name)
  }

  lemma {:induction false} CutFragmentConcat(a: string, b: string)
    requires '#' !in a
    ensures CutFragment(a + b) == a + CutFragment(b)
  {
    if b == "" {
      assert a + b == a;
    } else {
      assert (a + b)[..|a + b| - 1] == a + b[..|b| - 1];
      if '#' in b && b[|b| - 1] != '#' {
        assert '#' in a + b;
        CutFragmentConcat(a, b[..|b| - 1]);
      } else if '#' in b {
        assert '#' in a + b;
      }
    }
  }

  lemma {:induction false} CutFragmentShortens(url: string)
    ensures |CutFragment(url)| <= |url|
    ensures |CutFragment(url)| == |url| ==> CutFragment(url) == url && '#' !in url
  {
    if '#' in url && url[|url| - 1] != '#' {
      CutFragmentShortens(url[..|url| - 1]);
    }
  }

  lemma {:induction false} BeforeQueryConcat(a: string, b: string)
    requires '?' !in a
    ensures BeforeQuery(a + b) == a + BeforeQuery(b)
  {
    if a == "" {
      assert a + b == b;
    } else {
      assert (a + b)[1..] == a[1..] + b;
      BeforeQueryConcat(a[1..], b);
    }
  }

  lemma {:induction false} TrimSlashesConcat(a: string, b: string)
    requires TrimSlashes(b) != ""
    ensures TrimSlashes(a + b) == a + TrimSlashes(b)
  {
    if b[|b| - 1] == '/' {
      assert (a + b)[..|a + b| - 1] == a + b[..|b| - 1];
      TrimSlashesConcat(a, b[..|b| - 1]);
    }
  }

  lemma {:induction false} TrimSlashesAllGone(a: string, b: string)
    requires TrimSlashes(b) == ""
    ensures TrimSlashes(a + b) == TrimSlashes(a)
  {
    if b == "" {
      assert a + b == a;
    } else {
      assert (a + b)[..|a + b| - 1] == a + b[..|b| - 1];
      TrimSlashesAllGone(a, b[..|b| - 1]);
    }
  }

  /** What the client sends for a tool call. */
  lemma ToolPath(name: string)
    ensures CutFragment(StripRight(TOOL_ROOT + name)) == TOOL_ROOT + CutFragment(StripRight(name))
  {
    StripRightConcat(TOOL_ROOT, name);
    CutFragmentConcat(TOOL_ROOT, StripRight(name));
  }

  /** How the stub trims a path that starts with `root`. */
  lemma TrimmedPath(root: string, sent: string)
    requires '?' !in root
    ensures var recorded := TrimSlashes(BeforeQuery(sent));
            TrimSlashes(BeforeQuery(root + sent)) == if recorded == "" then TrimSlashes(root) else root + recorded
  {
    BeforeQueryConcat(root, sent);
    if TrimSlashes(BeforeQuery(sent)) == "" {
      TrimSlashesAllGone(root, BeforeQuery(sent));
    } else {
      TrimSlashesConcat(root, BeforeQuery(sent));
    }
  }

  lemma ToolRootRoutes(recorded: string)
    ensures TrimmedRoute(TrimSlashes(TOOL_ROOT)) == NotFound
    ensures TrimmedRoute(TOOL_ROOT + recorded) == Tool(recorded)
  {
    assert TOOL_ROOT[..5] == "/tool";
    assert (TOOL_ROOT + recorded)[1] == 't';
  }

  lemma SentToolRoute(sent: string)
    ensures var recorded := TrimSlashes(BeforeQuery(sent));
            RouteOf(TOOL_ROOT + sent) == if recorded == "" then NotFound else Tool(recorded)
  {
    TrimmedPath(TOOL_ROOT, sent);
    ToolRootRoutes(TrimSlashes(BeforeQuery(sent)));
  }

  /** Every tool call is refused by the client, finds no route, or is routed by its recorded name. */
  lemma ToolRoute(name: string)
    ensures match ClientPath(TOOL_ROOT + name)
            case None => RecordedName(name) == None
            case Some(path) => RouteOf(path) == if RecordedName(name).None? then NotFound else Tool(RecordedName(name).value)
  {
    ToolPath(name);
    SentToolRoute(CutFragment(StripRight(name)));
  }

  lemma {:induction false} BeforeQueryKeeps(name: string)
    ensures BeforeQuery(name) == name <==> '?' !in name
    ensures |BeforeQuery(name)| <= |name|
    ensures |BeforeQuery(name)| == |name| ==> BeforeQuery(name) == name
  {
    if name != "" {
      BeforeQueryKeeps(name[1..]);
      assert name == [name[0]] + name[1..];
    }
  }

  lemma {:induction false} TrimSlashesShortens(name: string)
    ensures |TrimSlashes(name)| <= |name|
    ensures |TrimSlashes(name)| == |name| ==> TrimSlashes(name) == name && (name == "" || name[|name| - 1] != '/')
  {
    if name != "" { TrimSlashesShortens(name[..|name| - 1]); }
  }

  /** The recorded name is the scripted one exactly for plain names. */
  lemma RecordedAsScriptedIffPlain(name: string)
    ensures RecordedName(name) == Some(name) <==> PlainName(name)
  {
    var stripped := StripRight(name);
    var sent := CutFragment(stripped);
    StripRightIsSlice(name);
    CutFragmentShortens(stripped);
    BeforeQueryKeeps(sent);
    TrimSlashesShortens(BeforeQuery(sent));
    if PlainName(name) {
      assert (TOOL_ROOT + name)[|TOOL_ROOT| + |name| - 1] == name[|name| - 1];
    }
  }

  /** Names that do not arrive as scripted: a fragment or a trailing blank is cut off, a name that is
      all fragment finds no route, and an inner blank or a non-ASCII character is refused. */
  lemma NamesNotRecordedAsScripted()
    ensures RecordedName("a#b") == Some("a") && RecordedName("a ") == Some("a")
    ensures RecordedName("#x") == None && RecordedName("a b") == None && RecordedName("\U{E9}") == None
  {
    assert "a#b"[..2] == "a#" && "a#"[..1] == "a" && "a "[..1] == "a";
    assert "#x"[..1] == "#" && "#"[..0] == "";
    assert "a"[1..] == "";
    assert BeforeQuery("a") == "a";
    assert (TOOL_ROOT + "a b")[|TOOL_ROOT| + 1] == ' ';
    assert (TOOL_ROOT + "\U{E9}")[|TOOL_ROOT|] == '\U{E9}';
  }
}
