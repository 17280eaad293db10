/** The MCP server manifest: a hand-written YAML printer, line by line, with every
    string of the specification in a double-quoted scalar. */
module McpManifest {
  import opened Wrappers
  import opened McpScalar
  import opened Texts

  datatype McpTransport = Http(url: string)

  datatype McpAuth = Oauth(provider: Option<string>)

  datatype McpServerSpec = McpServerSpec(name: string, description: string, sourceUrl: string,
                                         transport: McpTransport, auth: Option<McpAuth>)

  // ------------------------------------------------------------------
  // The lines of a manifest
  // ------------------------------------------------------------------

  datatype Line = Comment(text: string) | Blank | Opening(key: string) | Field(indent: nat, key: string, value: string)

  function Spaces(n: nat): string {
    if n == 0 then "" else [' '] + Spaces(n - 1)
  }

  function Text(line: Line): string {
    match line
    case Comment(text) => text
    case Blank => ""
    case Opening(key) => key + [':']
    case Field(n, key, value) => Spaces(n) + (key + ([':', ' '] + value))
  }

  const COMMENT_1: string := "# Materialized by `agency" + (" mcp add` (1.3.0, " + "ADR-0011).")
  const COMMENT_2: string := "# Edit the comments above" + (" (they will be preserved " + "on re-render)")
  const COMMENT_3: string := "# by removing the leading" + (" `#` and adding your own" + ".")

  function HeaderLines(): seq<Line> {
    [Comment(COMMENT_1), Comment(COMMENT_2), Comment(COMMENT_3), Field(0, "manifest_version", "1"), Blank]
  }

  function FieldLines(spec: McpServerSpec): seq<Line> {
    [Field(0, "name", Quoted(spec.name)), Field(0, "description", Quoted(spec.description)),
     Field(0, "source", Quoted(spec.sourceUrl)), Blank]
  }

  function TransportLines(t: McpTransport): seq<Line> {
    [Opening("transport"), Field(2, "type", "http"), Field(2, "url", Quoted(t.url))]
  }

  function AuthLines(auth: Option<McpAuth>): seq<Line> {
    match auth
    case None => []
    case Some(Oauth(None)) => [Blank, Opening("auth"), Field(2, "type", "oauth")]
    case Some(Oauth(Some(p))) =>
      [Blank, Opening("auth"), Field(2, "type", "oauth"), Field(2, "provider", Quoted(p))]
  }

  function ManifestLines(spec: McpServerSpec): seq<Line> {
    (HeaderLines() + FieldLines(spec)) + (TransportLines(spec.transport) + AuthLines(spec.auth))
  }

  // Every line ends in a line feed.
  function Printed(lines: seq<Line>): string {
    if lines == [] then "" else Text(lines[0]) + (['\n'] + Printed(lines[1..]))
  }

  function Rendered(spec: McpServerSpec): string {
    Printed(ManifestLines(spec))
  }

  lemma AssociatesTwice(a: string, b: string, c: string, d: string)
    ensures (a + (b + c)) + d == a + (b + (c + d))
  {
    Associates(a, b + c, d);
    Associates(b, c, d);
  }

  lemma {:induction false} PrintedAppends(lines: seq<Line>, line: Line)
    ensures Printed(lines + [line]) == Printed(lines) + (Text(line) + ['\n'])
  {
    if lines == [] {
      assert [] + [line] == [line] && [line][1..] == [];
    } else {
      PrintedAppends(lines[1..], line);
      assert (lines + [line])[1..] == lines[1..] + [line];
      AssociatesTwice(Text(lines[0]), ['\n'], Printed(lines[1..]), Text(line) + ['\n']);
    }
  }

  // ------------------------------------------------------------------
  // The printer
  // ------------------------------------------------------------------

  ghost predicate HasAt(lines: seq<Line>, base: nat, part: seq<Line>) {
    base + |part| <= |lines| && lines[base..base + |part|] == part
  }

  // The first n lines are out.
  ghost predicate IsOut(out: string, lines: seq<Line>, n: nat) {
    n <= |lines| && out == Printed(lines[..n])
  }

  lemma OneMoreIsOut(out: string, lines: seq<Line>, n: nat)
    requires IsOut(out, lines, n) && n < |lines|
    ensures IsOut(out + (Text(lines[n]) + ['\n']), lines, n + 1)
  {
    PrintedAppends(lines[..n], lines[n]);
    assert lines[..n] + [lines[n]] == lines[..n + 1];
  }

  // The given line comes next.
  ghost predicate IsNext(lines: seq<Line>, n: nat, line: Line) {
    n < |lines| && lines[n] == line
  }

  lemma PartComesNext(lines: seq<Line>, base: nat, part: seq<Line>, k: nat)
    requires HasAt(lines, base, part) && k < |part|
    ensures IsNext(lines, base + k, part[k])
  {
    assert part[k] == lines[base..base + |part|][k];
  }

  method PushLine(out: string, text: string, ghost lines: seq<Line>, ghost n: nat) returns (out': string)
    requires IsOut(out, lines, n) && n < |lines| && text == Text(lines[n])
    ensures IsOut(out', lines, n + 1)
  {
    OneMoreIsOut(out, lines, n);
    out' := out + (text + ['\n']);
  }

  // A line with a quoted string.
  method PushQuoted(out: string, prefix: string, s: string, ghost lines: seq<Line>, ghost n: nat,
                    ghost indent: nat, ghost key: string)
    returns (out': string)
    requires IsOut(out, lines, n) && IsNext(lines, n, Field(indent, key, Quoted(s)))
    requires prefix == Spaces(indent) + (key + [':', ' '])
    ensures IsOut(out', lines, n + 1)
  {
    var quoted := YamlQuote(s);
    FieldText(prefix, indent, key, quoted);
    out' := PushLine(out, prefix + quoted, lines, n);
  }

  lemma FieldText(prefix: string, n: nat, key: string, value: string)
    requires prefix == Spaces(n) + (key + [':', ' '])
    ensures Text(Field(n, key, value)) == prefix + value
  {
    AssociatesTwice(Spaces(n), key, [':', ' '], value);
  }

  lemma ConstantFieldTexts()
    ensures Text(Field(0, "manifest_version", "1")) == "manifest_version: 1"
    ensures Text(Field(2, "type", "http")) == "  type: http"
    ensures Text(Field(2, "type", "oauth")) == "  type: oauth"
  {
    FieldText("manifest_version: ", 0, "manifest_version", "1");
    FieldText("  type: ", 2, "type", "http");
    FieldText("  type: ", 2, "type", "oauth");
  }

  lemma HeaderComesNext(lines: seq<Line>)
    requires HasAt(lines, 0, HeaderLines())
    ensures IsNext(lines, 0, Comment(COMMENT_1)) && IsNext(lines, 1, Comment(COMMENT_2))
    ensures IsNext(lines, 2, Comment(COMMENT_3)) && IsNext(lines, 3, Field(0, "manifest_version", "1"))
    ensures IsNext(lines, 4, Blank)
  {
    var part := HeaderLines();
    PartComesNext(lines, 0, part, 0);
    PartComesNext(lines, 0, part, 1);
    PartComesNext(lines, 0, part, 2);
    PartComesNext(lines, 0, part, 3);
    PartComesNext(lines, 0, part, 4);
  }

  method PushHeader(ghost lines: seq<Line>) returns (out: string)
    requires HasAt(lines, 0, HeaderLines())
    ensures IsOut(out, lines, 5)
  {
    HeaderComesNext(lines);
    out := PushComments(lines);
    ConstantFieldTexts();
    out := PushLine(out, "manifest_version: 1", lines, 3);
    out := PushLine(out, "", lines, 4);
  }

  method PushComments(ghost lines: seq<Line>) returns (out: string)
    requires IsNext(lines, 0, Comment(COMMENT_1)) && IsNext(lines, 1, Comment(COMMENT_2))
    requires IsNext(lines, 2, Comment(COMMENT_3))
    ensures IsOut(out, lines, 3)
  {
    out := "";
    out := PushLine(out, COMMENT_1, lines, 0);
    out := PushLine(out, COMMENT_2, lines, 1);
    out := PushLine(out, COMMENT_3, lines, 2);
  }

  lemma FieldsComeNext(spec: McpServerSpec, lines: seq<Line>)
    requires HasAt(lines, 5, FieldLines(spec))
    ensures IsNext(lines, 5, Field(0, "name", Quoted(spec.name)))
    ensures IsNext(lines, 6, Field(0, "description", Quoted(spec.description)))
    ensures IsNext(lines, 7, Field(0, "source", Quoted(spec.sourceUrl))) && IsNext(lines, 8, Blank)
  {
    var part := FieldLines(spec);
    PartComesNext(lines, 5, part, 0);
    PartComesNext(lines, 5, part, 1);
    PartComesNext(lines, 5, part, 2);
    PartComesNext(lines, 5, part, 3);
  }

  method PushFields(done: string, spec: McpServerSpec, ghost lines: seq<Line>) returns (out: string)
    requires HasAt(lines, 5, FieldLines(spec))
    requires IsOut(done, lines, 5)
    ensures IsOut(out, lines, 9)
  {
    FieldsComeNext(spec, lines);
    out := PushQuoted(done, "name: ", spec.name, lines, 5, 0, "name");
    out := PushQuoted(out, "description: ", spec.description, lines, 6, 0, "description");
    out := PushQuoted(out, "source: ", spec.sourceUrl, lines, 7, 0, "source");
    out := PushLine(out, "", lines, 8);
  }

  lemma TransportComesNext(transport: McpTransport, lines: seq<Line>)
    requires HasAt(lines, 9, TransportLines(transport))
    ensures IsNext(lines, 9, Opening("transport")) && IsNext(lines, 10, Field(2, "type", "http"))
    ensures IsNext(lines, 11, Field(2, "url", Quoted(transport.url)))
  {
    var part := TransportLines(transport);
    PartComesNext(lines, 9, part, 0);
    PartComesNext(lines, 9, part, 1);
    PartComesNext(lines, 9, part, 2);
  }

  method PushTransport(done: string, transport: McpTransport, ghost lines: seq<Line>) returns (out: string)
    requires HasAt(lines, 9, TransportLines(transport))
    requires IsOut(done, lines, 9)
    ensures IsOut(out, lines, 12)
  {
    TransportComesNext(transport, lines);
    ConstantFieldTexts();
    out := PushLine(done, "transport:", lines, 9);
    out := PushLine(out, "  type: http", lines, 10);
    out := PushQuoted(out, "  url: ", transport.url, lines, 11, 2, "url");
  }

  lemma AuthComesNext(provider: Option<string>, lines: seq<Line>)
    requires HasAt(lines, 12, AuthLines(Some(Oauth(provider))))
    ensures IsNext(lines, 12, Blank) && IsNext(lines, 13, Opening("auth")) && IsNext(lines, 14, Field(2, "type", "oauth"))
    ensures provider.Some? ==> IsNext(lines, 15, Field(2, "provider", Quoted(provider.value)))
  {
    var part := AuthLines(Some(Oauth(provider)));
    PartComesNext(lines, 12, part, 0);
    PartComesNext(lines, 12, part, 1);
    PartComesNext(lines, 12, part, 2);
    if provider.Some? {
      PartComesNext(lines, 12, part, 3);
    }
  }

  method PushAuth(done: string, auth: Option<McpAuth>, ghost lines: seq<Line>) returns (out: string)
    requires HasAt(lines, 12, AuthLines(auth))
    requires IsOut(done, lines, 12)
    ensures IsOut(out, lines, 12 + |AuthLines(auth)|)
  {
    out := done;
    match auth {
      case None =>
      case Some(Oauth(provider)) =>
        AuthComesNext(provider, lines);
        out := PushOauth(out, lines);
        match provider {
          case None =>
          case Some(p) =>
            out := PushQuoted(out, "  provider: ", p, lines, 15, 2, "provider");
        }
    }
  }

  method PushOauth(done: string, ghost lines: seq<Line>) returns (out: string)
    requires IsNext(lines, 12, Blank) && IsNext(lines, 13, Opening("auth")) && IsNext(lines, 14, Field(2, "type", "oauth"))
    requires IsOut(done, lines, 12)
    ensures IsOut(out, lines, 15)
  {
    ConstantFieldTexts();
    out := PushLine(done, "", lines, 12);
    out := PushLine(out, "auth:", lines, 13);
    out := PushLine(out, "  type: oauth", lines, 14);
  }

  lemma ManifestParts(spec: McpServerSpec)
    ensures HasAt(ManifestLines(spec), 0, HeaderLines())
    ensures HasAt(ManifestLines(spec), 5, FieldLines(spec))
    ensures HasAt(ManifestLines(spec), 9, TransportLines(spec.transport))
    ensures HasAt(ManifestLines(spec), 12, AuthLines(spec.auth))
    ensures |ManifestLines(spec)| == 12 + |AuthLines(spec.auth)|
  {
  }

  method RenderManifestYaml(spec: McpServerSpec) returns (out: string)
    ensures out == Rendered(spec)
  {
    ghost var lines := ManifestLines(spec);
    ManifestParts(spec);
    out := PushHeader(lines);
    out := PushFields(out, spec, lines);
    out := PushTransport(out, spec.transport, lines);
    out := PushAuth(out, spec.auth, lines);
    assert lines[..|lines|] == lines;
  }
}
