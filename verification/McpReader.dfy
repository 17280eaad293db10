/** A reader for the part of YAML 1.2.2 that MCP manifests use: comments, and block
    mappings of at most two levels whose values are one-line scalars.  It is written
    without reference to the printer, and is proved to invert it. */
module McpReader {
  import opened Wrappers
  import opened McpScalar
  import opened McpManifest
  import opened Texts

  // ------------------------------------------------------------------
  // Lines and entries
  // ------------------------------------------------------------------

  function FirstLineFeed(text: string): (n: nat)
    ensures n <= |text|
  {
    if text == "" || text[0] == '\n' then 0 else 1 + FirstLineFeed(text[1..])
  }

  // The lines of a text, without their line feeds.
  function SplitLines(text: string): seq<string>
    decreases |text|
  {
    if text == "" then []
    else
      var n := FirstLineFeed(text);
      if n == |text| then [text] else [text[..n]] + SplitLines(text[n + 1..])
  }

  // A key at some depth of indentation, with the raw text of its value.
  datatype Entry = Entry(indent: nat, key: string, value: string)

  function Indent(line: string): (n: nat)
    ensures n <= |line|
  {
    if line != "" && line[0] == ' ' then 1 + Indent(line[1..]) else 0
  }

  function FirstColon(s: string): (n: nat)
    ensures n <= |s|
  {
    if s == "" || s[0] == ':' then 0 else 1 + FirstColon(s[1..])
  }

  predicate IsBlankOrComment(line: string) {
    var n := Indent(line);
    n == |line| || line[n] == '#'
  }

  // A key is followed by a colon and, if there is a value on the line, a space.
  function ReadEntry(line: string): Option<Entry> {
    var n := Indent(line);
    var body := line[n..];
    var k := FirstColon(body);
    if k == |body| || k == 0 then None
    else if k + 1 == |body| then Some(Entry(n, body[..k], ""))
    else if body[k + 1] == ' ' && k + 2 < |body| then Some(Entry(n, body[..k], body[k + 2..]))
    else None
  }

  function ReadEntries(lines: seq<string>): Option<seq<Entry>>
    decreases |lines|
  {
    if lines == [] then Some([])
    else if IsBlankOrComment(lines[0]) then ReadEntries(lines[1..])
    else
      match ReadEntry(lines[0])
      case None => None
      case Some(e) => After(e, ReadEntries(lines[1..]))
  }

  function After(e: Entry, rest: Option<seq<Entry>>): Option<seq<Entry>> {
    match rest
    case None => None
    case Some(es) => Some([e] + es)
  }

  // ------------------------------------------------------------------
  // The mapping and the specification it holds
  // ------------------------------------------------------------------

  // A path through the two levels, such as ("transport", "url").
  datatype Path = Top(key: string) | Under(parent: string, key: string)

  // The raw scalar at each path.  None if a key is repeated, an indent is neither 0
  // nor 2, or a nested line has no parent or no value.
  function Collect(entries: seq<Entry>, parent: Option<string>, found: map<Path, string>): Option<map<Path, string>>
    decreases |entries|
  {
    if entries == [] then Some(found)
    else
      var e := entries[0];
      if e.indent == 0 then
        if Top(e.key) in found then None
        else Collect(entries[1..], if e.value == "" then Some(e.key) else None, found[Top(e.key) := e.value])
      else if e.indent == 2 && parent.Some? && e.value != "" then
        var path := Under(parent.value, e.key);
        if path in found then None else Collect(entries[1..], parent, found[path := e.value])
      else None
  }

  // How a reader reads a scalar: None if it refuses it.
  type Read = string -> Option<string>

  function Scalar(m: map<Path, string>, path: Path, read: Read): Option<string> {
    if path in m then read(m[path]) else None
  }

  const VERSION: Path := Top("manifest_version")
  const NAME: Path := Top("name")
  const DESCRIPTION: Path := Top("description")
  const SOURCE: Path := Top("source")
  const TRANSPORT: Path := Top("transport")
  const TRANSPORT_TYPE: Path := Under("transport", "type")
  const TRANSPORT_URL: Path := Under("transport", "url")
  const AUTH: Path := Top("auth")
  const AUTH_TYPE: Path := Under("auth", "type")
  const AUTH_PROVIDER: Path := Under("auth", "provider")

  const REQUIRED: set<Path> := {VERSION, NAME, DESCRIPTION, SOURCE, TRANSPORT, TRANSPORT_TYPE, TRANSPORT_URL}

  // None if the transport is malformed.
  function ReadTransport(m: map<Path, string>, read: Read): Option<McpTransport>
    requires REQUIRED <= m.Keys
  {
    if m[TRANSPORT] == "" && m[TRANSPORT_TYPE] == "http" then
      match Scalar(m, TRANSPORT_URL, read)
      case None => None
      case Some(url) => Some(Http(url))
    else None
  }

  // None if the auth part is malformed or some key is unknown.
  function ReadAuth(m: map<Path, string>, read: Read): Option<Option<McpAuth>> {
    if m.Keys == REQUIRED then Some(None)
    else if AUTH in m && AUTH_TYPE in m && m[AUTH] == "" && m[AUTH_TYPE] == "oauth" then
      if m.Keys == REQUIRED + {AUTH, AUTH_TYPE} then Some(Some(Oauth(None)))
      else if m.Keys == REQUIRED + {AUTH, AUTH_TYPE, AUTH_PROVIDER} then
        match Scalar(m, AUTH_PROVIDER, read)
        case None => None
        case Some(p) => Some(Some(Oauth(Some(p))))
      else None
    else None
  }

  function FromMap(m: map<Path, string>, read: Read): Option<McpServerSpec> {
    if REQUIRED <= m.Keys && m[VERSION] == "1" then
      match (Scalar(m, NAME, read), Scalar(m, DESCRIPTION, read), Scalar(m, SOURCE, read), ReadTransport(m, read),
             ReadAuth(m, read))
      case (Some(name), Some(description), Some(source), Some(transport), Some(auth)) =>
        Some(McpServerSpec(name, description, source, transport, auth))
      case (_, _, _, _, _) => None
    else None
  }

  function ReadLines(lines: seq<string>, read: Read): Option<McpServerSpec> {
    match ReadEntries(lines)
    case None => None
    case Some(entries) =>
      match Collect(entries, None, map[])
      case None => None
      case Some(m) => FromMap(m, read)
  }

  function ReadManifest(text: string): Option<McpServerSpec> {
    ReadLines(SplitLines(text), Unquoted)
  }

  // ------------------------------------------------------------------
  // Printed lines are read line by line
  // ------------------------------------------------------------------

  ghost predicate OneLine(text: string) {
    '\n' !in text
  }

  ghost predicate IsKey(key: string) {
    && key != "" && key[0] != ' ' && key[0] != '#'
    && forall i :: 0 <= i < |key| ==> key[i] != ':' && key[i] != '\n'
  }

  ghost predicate WellFormed(line: Line) {
    match line
    case Comment(text) => text != "" && text[0] == '#' && OneLine(text)
    case Blank => true
    case Opening(key) => IsKey(key)
    case Field(_, key, value) => IsKey(key) && value != "" && OneLine(value)
  }

  function EntryOf(line: Line): Entry
    requires line.Opening? || line.Field?
  {
    match line
    case Opening(key) => Entry(0, key, "")
    case Field(n, key, value) => Entry(n, key, value)
  }

  function EntriesOf(lines: seq<Line>): seq<Entry> {
    if lines == [] then []
    else if lines[0].Opening? || lines[0].Field? then [EntryOf(lines[0])] + EntriesOf(lines[1..])
    else EntriesOf(lines[1..])
  }

  lemma EntriesFrom(lines: seq<Line>, i: nat)
    requires i < |lines|
    ensures lines[i].Opening? || lines[i].Field? ==> EntriesOf(lines[i..]) == [EntryOf(lines[i])] + EntriesOf(lines[i + 1..])
    ensures lines[i].Comment? || lines[i].Blank? ==> EntriesOf(lines[i..]) == EntriesOf(lines[i + 1..])
  {
    assert lines[i..][1..] == lines[i + 1..];
  }

  lemma {:induction false} LineFeedAfter(line: string, rest: string)
    requires OneLine(line)
    ensures FirstLineFeed(line + (['\n'] + rest)) == |line|
  {
    if line == "" {
      assert "" + (['\n'] + rest) == ['\n'] + rest;
    } else {
      LineFeedAfter(line[1..], rest);
      assert (line + (['\n'] + rest))[1..] == line[1..] + (['\n'] + rest);
    }
  }

  lemma SplitFirstLine(line: string, rest: string)
    requires OneLine(line)
    ensures SplitLines(line + (['\n'] + rest)) == [line] + SplitLines(rest)
  {
    LineFeedAfter(line, rest);
    var text := line + (['\n'] + rest);
    assert text[..|line|] == line && text[|line| + 1..] == rest;
  }

  lemma {:induction false} IndentOfSpaces(n: nat, body: string)
    requires body != "" && body[0] != ' '
    ensures Indent(Spaces(n) + body) == n && |Spaces(n)| == n
  {
    if n == 0 {
      assert "" + body == body;
    } else {
      IndentOfSpaces(n - 1, body);
      assert (Spaces(n) + body)[1..] == Spaces(n - 1) + body;
    }
  }

  lemma {:induction false} ColonAfter(key: string, rest: string)
    requires forall i :: 0 <= i < |key| ==> key[i] != ':'
    ensures FirstColon(key + ([':'] + rest)) == |key|
  {
    if key == "" {
      assert "" + ([':'] + rest) == [':'] + rest;
    } else {
      ColonAfter(key[1..], rest);
      assert (key + ([':'] + rest))[1..] == key[1..] + ([':'] + rest);
    }
  }

  lemma OpeningReads(key: string)
    requires IsKey(key)
    ensures OneLine(key + [':']) && !IsBlankOrComment(key + [':'])
    ensures ReadEntry(key + [':']) == Some(Entry(0, key, ""))
  {
    var line := key + [':'];
    ColonAfter(key, "");
    assert key + ([':'] + "") == line && line[0..] == line && line[..|key|] == key;
  }

  lemma BodySplits(key: string, value: string)
    ensures var body := key + ([':', ' '] + value);
      body == key + ([':'] + ([' '] + value)) && body[..|key|] == key && body[|key| + 2..] == value
  {
  }

  lemma BodyReads(key: string, value: string)
    requires IsKey(key) && value != "" && OneLine(value)
    ensures var body := key + ([':', ' '] + value);
      && OneLine(body) && |body| > |key| + 2 && body[0] == key[0] && body[|key| + 1] == ' '
      && FirstColon(body) == |key| && body[..|key|] == key && body[|key| + 2..] == value
  {
    BodySplits(key, value);
    ColonAfter(key, [' '] + value);
  }

  lemma {:induction false} SpacesAreSpaces(n: nat)
    ensures OneLine(Spaces(n))
  {
    if n > 0 {
      SpacesAreSpaces(n - 1);
    }
  }

  lemma FieldReads(n: nat, key: string, value: string)
    requires IsKey(key) && value != "" && OneLine(value)
    ensures var line := Text(Field(n, key, value));
      OneLine(line) && !IsBlankOrComment(line) && ReadEntry(line) == Some(Entry(n, key, value))
  {
    var body := key + ([':', ' '] + value);
    SpacesAreSpaces(n);
    IndentOfSpaces(n, body);
    BodyReads(key, value);
    assert (Spaces(n) + body)[n..] == body;
  }

  /** Whatever well-formed lines are printed, the reader recovers their entries. */
  lemma {:induction false} PrintedLinesAreRead(lines: seq<Line>)
    requires forall i :: 0 <= i < |lines| ==> WellFormed(lines[i])
    ensures ReadEntries(SplitLines(Printed(lines))) == Some(EntriesOf(lines))
  {
    if lines != [] {
      PrintedLinesAreRead(lines[1..]);
      match lines[0] {
        case Comment(_) =>
        case Blank =>
        case Opening(key) => OpeningReads(key);
        case Field(n, key, value) => FieldReads(n, key, value);
      }
      SplitFirstLine(Text(lines[0]), Printed(lines[1..]));
      FirstLineIsRead(lines[0], SplitLines(Printed(lines[1..])));
    }
  }

  lemma FirstLineIsRead(line: Line, rest: seq<string>)
    ensures IsBlankOrComment(Text(line)) ==> ReadEntries([Text(line)] + rest) == ReadEntries(rest)
    ensures !IsBlankOrComment(Text(line)) && ReadEntry(Text(line)).Some? ==>
      ReadEntries([Text(line)] + rest) == After(ReadEntry(Text(line)).value, ReadEntries(rest))
  {
    assert ([Text(line)] + rest)[1..] == rest;
  }

  // ------------------------------------------------------------------
  // The manifest's own lines
  // ------------------------------------------------------------------

  lemma FirstCommentIsOneLine()
    ensures OneLine(COMMENT_1) && COMMENT_1[0] == '#'
  {
  }

  lemma SecondCommentIsOneLine()
    ensures OneLine(COMMENT_2) && COMMENT_2[0] == '#'
  {
  }

  lemma ThirdCommentIsOneLine()
    ensures OneLine(COMMENT_3) && COMMENT_3[0] == '#'
  {
  }

  lemma QuotedIsOneLine(s: string)
    ensures Quoted(s) != "" && OneLine(Quoted(s))
  {
    QuotedIsSelfDelimiting(s, "");
  }

  ghost predicate AllWellFormed(lines: seq<Line>) {
    forall i :: 0 <= i < |lines| ==> WellFormed(lines[i])
  }

  lemma HeaderIsWellFormed()
    ensures AllWellFormed(HeaderLines())
    ensures EntriesOf(HeaderLines()) == [Entry(0, "manifest_version", "1")]
  {
    FirstCommentIsOneLine();
    SecondCommentIsOneLine();
    ThirdCommentIsOneLine();
    KeysAreKeys();
    var lines := HeaderLines();
    assert lines[0..] == lines && lines[5..] == [];
    EntriesFrom(lines, 0);
    EntriesFrom(lines, 1);
    EntriesFrom(lines, 2);
    EntriesFrom(lines, 3);
    EntriesFrom(lines, 4);
  }

  lemma KeysAreKeys()
    ensures IsKey("name") && IsKey("description") && IsKey("source") && IsKey("transport") && IsKey("auth")
    ensures IsKey("type") && IsKey("url") && IsKey("provider") && IsKey("manifest_version")
  {
  }

  lemma FieldsAreWellFormed(spec: McpServerSpec)
    ensures AllWellFormed(FieldLines(spec))
    ensures EntriesOf(FieldLines(spec))
         == [Entry(0, "name", Quoted(spec.name)), Entry(0, "description", Quoted(spec.description)),
             Entry(0, "source", Quoted(spec.sourceUrl))]
  {
    KeysAreKeys();
    QuotedIsOneLine(spec.name);
    QuotedIsOneLine(spec.description);
    QuotedIsOneLine(spec.sourceUrl);
    var lines := FieldLines(spec);
    assert lines[0..] == lines && lines[4..] == [];
    EntriesFrom(lines, 0);
    EntriesFrom(lines, 1);
    EntriesFrom(lines, 2);
    EntriesFrom(lines, 3);
  }

  lemma TransportIsWellFormed(t: McpTransport)
    ensures AllWellFormed(TransportLines(t))
    ensures EntriesOf(TransportLines(t))
         == [Entry(0, "transport", ""), Entry(2, "type", "http"), Entry(2, "url", Quoted(t.url))]
  {
    KeysAreKeys();
    QuotedIsOneLine(t.url);
    var lines := TransportLines(t);
    assert lines[0..] == lines && lines[3..] == [];
    EntriesFrom(lines, 0);
    EntriesFrom(lines, 1);
    EntriesFrom(lines, 2);
  }

  function AuthEntries(auth: Option<McpAuth>): seq<Entry> {
    match auth
    case None => []
    case Some(Oauth(None)) => [Entry(0, "auth", ""), Entry(2, "type", "oauth")]
    case Some(Oauth(Some(p))) =>
      [Entry(0, "auth", ""), Entry(2, "type", "oauth"), Entry(2, "provider", Quoted(p))]
  }

  lemma AuthIsWellFormed(auth: Option<McpAuth>)
    ensures AllWellFormed(AuthLines(auth))
    ensures EntriesOf(AuthLines(auth)) == AuthEntries(auth)
  {
    if auth.Some? {
      KeysAreKeys();
      var lines := AuthLines(auth);
      assert lines[0..] == lines && lines[|lines|..] == [];
      EntriesFrom(lines, 0);
      EntriesFrom(lines, 1);
      EntriesFrom(lines, 2);
      if auth.value.provider.Some? {
        QuotedIsOneLine(auth.value.provider.value);
        EntriesFrom(lines, 3);
      }
    }
  }

  // ------------------------------------------------------------------
  // The mapping they collect into
  // ------------------------------------------------------------------

  lemma TakeTop(e: Entry, rest: seq<Entry>, parent: Option<string>, found: map<Path, string>)
    requires e.indent == 0 && Top(e.key) !in found
    ensures Collect([e] + rest, parent, found)
         == Collect(rest, if e.value == "" then Some(e.key) else None, found[Top(e.key) := e.value])
  {
    assert ([e] + rest)[1..] == rest;
  }

  lemma TakeUnder(e: Entry, rest: seq<Entry>, parent: string, found: map<Path, string>)
    requires e.indent == 2 && e.value != "" && Under(parent, e.key) !in found
    ensures Collect([e] + rest, Some(parent), found) == Collect(rest, Some(parent), found[Under(parent, e.key) := e.value])
  {
    assert ([e] + rest)[1..] == rest;
  }

  lemma TopKeysDiffer()
    ensures VERSION != NAME && VERSION != DESCRIPTION && VERSION != SOURCE && VERSION != TRANSPORT && VERSION != AUTH
    ensures NAME != DESCRIPTION && NAME != SOURCE && NAME != TRANSPORT && NAME != AUTH
    ensures DESCRIPTION != SOURCE && DESCRIPTION != TRANSPORT && DESCRIPTION != AUTH
    ensures SOURCE != TRANSPORT && SOURCE != AUTH && TRANSPORT != AUTH
  {
    assert "name"[0] != "auth"[0];
  }

  lemma NestedKeysDiffer()
    ensures TRANSPORT_TYPE != TRANSPORT_URL && TRANSPORT_TYPE != AUTH_TYPE && TRANSPORT_TYPE != AUTH_PROVIDER
    ensures TRANSPORT_URL != AUTH_TYPE && TRANSPORT_URL != AUTH_PROVIDER && AUTH_TYPE != AUTH_PROVIDER
  {
    assert |"type"| != |"url"| && |"type"| != |"provider"|;
    assert |"transport"| != |"auth"|;
  }

  function BeforeTransport(spec: McpServerSpec): map<Path, string> {
    map[][VERSION := "1"][NAME := Quoted(spec.name)]
      [DESCRIPTION := Quoted(spec.description)][SOURCE := Quoted(spec.sourceUrl)]
  }

  function BeforeAuth(spec: McpServerSpec): map<Path, string> {
    BeforeTransport(spec)[TRANSPORT := ""][TRANSPORT_TYPE := "http"][TRANSPORT_URL := Quoted(spec.transport.url)]
  }

  function Collected(spec: McpServerSpec): map<Path, string> {
    match spec.auth
    case None => BeforeAuth(spec)
    case Some(Oauth(None)) => BeforeAuth(spec)[AUTH := ""][AUTH_TYPE := "oauth"]
    case Some(Oauth(Some(p))) => BeforeAuth(spec)[AUTH := ""][AUTH_TYPE := "oauth"][AUTH_PROVIDER := Quoted(p)]
  }

  lemma CollectFields(spec: McpServerSpec, rest: seq<Entry>)
    ensures Collect([Entry(0, "manifest_version", "1")] + ([Entry(0, "name", Quoted(spec.name))]
      + ([Entry(0, "description", Quoted(spec.description))] + ([Entry(0, "source", Quoted(spec.sourceUrl))] + rest))),
      None, map[]) == Collect(rest, None, BeforeTransport(spec))
  {
    TopKeysDiffer();
    var e1 := Entry(0, "name", Quoted(spec.name));
    var e2 := Entry(0, "description", Quoted(spec.description));
    var e3 := Entry(0, "source", Quoted(spec.sourceUrl));
    var m1 := map[][VERSION := "1"];
    TakeTop(Entry(0, "manifest_version", "1"), [e1] + ([e2] + ([e3] + rest)), None, map[]);
    TakeTop(e1, [e2] + ([e3] + rest), None, m1);
    var m2 := m1[NAME := e1.value];
    TakeTop(e2, [e3] + rest, None, m2);
    TakeTop(e3, rest, None, m2[DESCRIPTION := e2.value]);
  }

  lemma CollectTransport(spec: McpServerSpec, rest: seq<Entry>)
    ensures Collect([Entry(0, "transport", "")] + ([Entry(2, "type", "http")]
      + ([Entry(2, "url", Quoted(spec.transport.url))] + rest)), None, BeforeTransport(spec))
      == Collect(rest, Some("transport"), BeforeAuth(spec))
  {
    TopKeysDiffer();
    NestedKeysDiffer();
    var m := BeforeTransport(spec);
    var e := Entry(2, "url", Quoted(spec.transport.url));
    TakeTop(Entry(0, "transport", ""), [Entry(2, "type", "http")] + ([e] + rest), None, m);
    TakeUnder(Entry(2, "type", "http"), [e] + rest, "transport", m[TRANSPORT := ""]);
    TakeUnder(e, rest, "transport", m[TRANSPORT := ""][TRANSPORT_TYPE := "http"]);
  }

  lemma KeysBeforeAuth(spec: McpServerSpec)
    ensures BeforeAuth(spec).Keys == REQUIRED
    ensures AUTH !in REQUIRED && AUTH_TYPE !in REQUIRED && AUTH_PROVIDER !in REQUIRED
  {
    TopKeysDiffer();
    NestedKeysDiffer();
  }

  lemma CollectAuth(spec: McpServerSpec)
    ensures Collect(AuthEntries(spec.auth), Some("transport"), BeforeAuth(spec)) == Some(Collected(spec))
  {
    KeysBeforeAuth(spec);
    NestedKeysDiffer();
    if spec.auth.Some? {
      var m := BeforeAuth(spec);
      var provider := spec.auth.value.provider;
      var last := if provider.None? then [] else [Entry(2, "provider", Quoted(provider.value))];
      assert AuthEntries(spec.auth) == [Entry(0, "auth", "")] + ([Entry(2, "type", "oauth")] + last);
      TakeTop(Entry(0, "auth", ""), [Entry(2, "type", "oauth")] + last, Some("transport"), m);
      TakeUnder(Entry(2, "type", "oauth"), last, "auth", m[AUTH := ""]);
      if spec.auth.value.provider.Some? {
        assert last == last + [];
        TakeUnder(last[0], [], "auth", m[AUTH := ""][AUTH_TYPE := "oauth"]);
      }
    }
  }

  lemma CollectedFields(spec: McpServerSpec)
    ensures var m := Collected(spec);
      && REQUIRED <= m.Keys && m[VERSION] == "1" && m[NAME] == Quoted(spec.name)
      && m[DESCRIPTION] == Quoted(spec.description) && m[SOURCE] == Quoted(spec.sourceUrl)
      && m[TRANSPORT] == "" && m[TRANSPORT_TYPE] == "http" && m[TRANSPORT_URL] == Quoted(spec.transport.url)
  {
    TopKeysDiffer();
    NestedKeysDiffer();
    KeysBeforeAuth(spec);
  }

  // The specification with its strings replaced, if each can be.
  function MappedAuth(auth: Option<McpAuth>, f: string -> Option<string>): Option<Option<McpAuth>> {
    match auth
    case None => Some(None)
    case Some(Oauth(None)) => Some(auth)
    case Some(Oauth(Some(p))) =>
      match f(p)
      case None => None
      case Some(q) => Some(Some(Oauth(Some(q))))
  }

  function Mapped(spec: McpServerSpec, f: string -> Option<string>): Option<McpServerSpec> {
    match (f(spec.name), f(spec.description), f(spec.sourceUrl), f(spec.transport.url), MappedAuth(spec.auth, f))
    case (Some(name), Some(description), Some(source), Some(url), Some(auth)) =>
      Some(McpServerSpec(name, description, source, Http(url), auth))
    case (_, _, _, _, _) => None
  }

  function AsQuoted(read: Read): string -> Option<string> {
    s => read(Quoted(s))
  }

  lemma CollectedAuth(spec: McpServerSpec, read: Read)
    ensures ReadAuth(Collected(spec), read) == MappedAuth(spec.auth, AsQuoted(read))
  {
    KeysBeforeAuth(spec);
    NestedKeysDiffer();
    if spec.auth.Some? {
      var m := Collected(spec);
      match spec.auth.value.provider {
        case None =>
          assert m.Keys == REQUIRED + {AUTH, AUTH_TYPE};
        case Some(p) =>
          assert m.Keys == REQUIRED + {AUTH, AUTH_TYPE, AUTH_PROVIDER};
          assert AUTH_PROVIDER !in REQUIRED + {AUTH, AUTH_TYPE};
      }
    }
  }

  lemma CollectedIsRead(spec: McpServerSpec, read: Read)
    ensures FromMap(Collected(spec), read) == Mapped(spec, AsQuoted(read))
  {
    CollectedFields(spec);
    CollectedAuth(spec, read);
  }

  // ------------------------------------------------------------------
  // The whole manifest
  // ------------------------------------------------------------------

  lemma {:induction false} EntriesOfConcat(a: seq<Line>, b: seq<Line>)
    ensures EntriesOf(a + b) == EntriesOf(a) + EntriesOf(b)
  {
    if a == [] {
      assert a + b == b;
    } else {
      EntriesOfConcat(a[1..], b);
      assert (a + b)[1..] == a[1..] + b;
      if a[0].Opening? || a[0].Field? {
        Associates([EntryOf(a[0])], EntriesOf(a[1..]), EntriesOf(b));
      }
    }
  }

  function HeadEntries(spec: McpServerSpec): seq<Entry> {
    [Entry(0, "manifest_version", "1")]
    + [Entry(0, "name", Quoted(spec.name)), Entry(0, "description", Quoted(spec.description)),
       Entry(0, "source", Quoted(spec.sourceUrl))]
  }

  function TailEntries(spec: McpServerSpec): seq<Entry> {
    [Entry(0, "transport", ""), Entry(2, "type", "http"), Entry(2, "url", Quoted(spec.transport.url))]
    + AuthEntries(spec.auth)
  }

  lemma ManifestIsWellFormed(spec: McpServerSpec)
    ensures AllWellFormed(ManifestLines(spec))
    ensures EntriesOf(ManifestLines(spec)) == HeadEntries(spec) + TailEntries(spec)
  {
    HeaderIsWellFormed();
    FieldsAreWellFormed(spec);
    TransportIsWellFormed(spec.transport);
    AuthIsWellFormed(spec.auth);
    EntriesOfConcat(HeaderLines(), FieldLines(spec));
    EntriesOfConcat(TransportLines(spec.transport), AuthLines(spec.auth));
    EntriesOfConcat(HeaderLines() + FieldLines(spec), TransportLines(spec.transport) + AuthLines(spec.auth));
  }

  lemma CollectManifest(spec: McpServerSpec)
    ensures Collect(HeadEntries(spec) + TailEntries(spec), None, map[]) == Some(Collected(spec))
  {
    var tail := TailEntries(spec);
    assert HeadEntries(spec) + tail
      == [Entry(0, "manifest_version", "1")] + ([Entry(0, "name", Quoted(spec.name))]
         + ([Entry(0, "description", Quoted(spec.description))] + ([Entry(0, "source", Quoted(spec.sourceUrl))] + tail)));
    CollectFields(spec, tail);
    assert tail == [Entry(0, "transport", "")] + ([Entry(2, "type", "http")]
                   + ([Entry(2, "url", Quoted(spec.transport.url))] + AuthEntries(spec.auth)));
    CollectTransport(spec, AuthEntries(spec.auth));
    CollectAuth(spec);
  }

  /** However scalars are read, reading a rendered manifest gives its specification
      with each string as its quoted form is read. */
  lemma RenderedIsRead(spec: McpServerSpec, read: Read)
    ensures ReadLines(SplitLines(Rendered(spec)), read) == Mapped(spec, AsQuoted(read))
  {
    ManifestIsWellFormed(spec);
    PrintedLinesAreRead(ManifestLines(spec));
    CollectManifest(spec);
    CollectedIsRead(spec, read);
  }

  ghost predicate IsStringOf(spec: McpServerSpec, s: string) {
    || s == spec.name || s == spec.description || s == spec.sourceUrl || s == spec.transport.url
    || (spec.auth.Some? && spec.auth.value.provider == Some(s))
  }

  lemma MappedToItself(spec: McpServerSpec, f: string -> Option<string>)
    ensures Mapped(spec, f) == Some(spec) <==> forall s :: IsStringOf(spec, s) ==> f(s) == Some(s)
    ensures Mapped(spec, f) == None <==> exists s :: IsStringOf(spec, s) && f(s) == None
  {
    assert IsStringOf(spec, spec.name) && IsStringOf(spec, spec.description) && IsStringOf(spec, spec.sourceUrl);
    assert IsStringOf(spec, spec.transport.url);
    if spec.auth.Some? && spec.auth.value.provider.Some? {
      assert IsStringOf(spec, spec.auth.value.provider.value);
    }
  }

  /** Reading a rendered manifest gives back exactly the specification it was rendered
      from, over all strings and all three shapes of the auth part. */
  lemma ManifestRoundTrip(spec: McpServerSpec)
    ensures ReadManifest(Rendered(spec)) == Some(spec)
  {
    var f := AsQuoted(Unquoted);
    RenderedIsRead(spec, Unquoted);
    forall s | IsStringOf(spec, s) ensures f(s) == Some(s) {
      ScalarRoundTrip(s);
    }
    MappedToItself(spec, f);
  }

  /** Different specifications render to different texts. */
  lemma RenderingIsInjective(a: McpServerSpec, b: McpServerSpec)
    requires Rendered(a) == Rendered(b)
    ensures a == b
  {
    ManifestRoundTrip(a);
    ManifestRoundTrip(b);
  }

  function LineCount(auth: Option<McpAuth>): nat {
    match auth
    case None => 12
    case Some(Oauth(None)) => 15
    case Some(Oauth(Some(_))) => 16
  }

  lemma {:induction false} PrintedLinesAreSplit(lines: seq<Line>)
    requires AllWellFormed(lines)
    ensures |SplitLines(Printed(lines))| == |lines|
    ensures forall i :: 0 <= i < |lines| ==> SplitLines(Printed(lines))[i] == Text(lines[i])
  {
    if lines != [] {
      PrintedLinesAreSplit(lines[1..]);
      match lines[0] {
        case Comment(_) =>
        case Blank =>
        case Opening(key) => OpeningReads(key);
        case Field(n, key, value) => FieldReads(n, key, value);
      }
      SplitFirstLine(Text(lines[0]), Printed(lines[1..]));
    }
  }

  /** No string in a specification can add a line: the number of lines depends only on
      the shape of the auth part. */
  lemma LineCountDependsOnAuthShape(spec: McpServerSpec)
    ensures |SplitLines(Rendered(spec))| == LineCount(spec.auth)
  {
    ManifestIsWellFormed(spec);
    PrintedLinesAreSplit(ManifestLines(spec));
    ManifestParts(spec);
  }
}
