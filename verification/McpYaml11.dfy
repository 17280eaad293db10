/** The manifest under a reader of YAML 1.1, which allows fewer characters raw and folds
    more line breaks inside quoted strings. */
module McpYaml11 {
  import opened Wrappers
  import opened McpScalar
  import opened McpManifest
  import opened McpReader
  import opened McpFolding

  // The characters a YAML 1.1 text may hold (section 5.1).
  predicate IsAllowed(c: char) {
    || c == '\t' || IsBreak(c) || ' ' <= c <= '~'
    || '\U{00A0}' <= c <= '\U{D7FF}' || '\U{E000}' <= c <= '\U{FFFD}' || '\U{10000}' <= c
  }

  predicate AllAllowed(s: string) {
    forall i :: 0 <= i < |s| ==> IsAllowed(s[i])
  }

  predicate HasBreak(s: string) {
    exists i :: 0 <= i < |s| && IsBreak(s[i])
  }

  // A text of allowed characters whose lines end in line feeds; other breaks stand only
  // in quoted strings.
  function ReadManifest11(text: string): Option<McpServerSpec> {
    var lines := SplitLines(text);
    if AllAllowed(text) && (forall i :: 0 <= i < |lines| && IsBlankOrComment(lines[i]) ==> !HasBreak(lines[i])) then
      ReadLines(lines, Unquoted11)
    else None
  }

  // Characters the printer escapes are as good as allowed ones.
  ghost predicate IsPrintable(s: string) {
    forall i :: 0 <= i < |s| ==> IsControl(s[i]) || IsAllowed(s[i])
  }

  // ------------------------------------------------------------------
  // Allowed characters, from strings to the manifest
  // ------------------------------------------------------------------

  // Visible ASCII and spaces, as in everything but the quoted strings.
  predicate AllPlain(s: string) {
    forall i :: 0 <= i < |s| ==> ' ' <= s[i] <= '~'
  }

  lemma PlainIsAllowed(s: string)
    requires AllPlain(s)
    ensures AllAllowed(s) && !HasBreak(s)
  {
  }

  lemma PlainConcat(a: string, b: string)
    requires AllPlain(a) && AllPlain(b)
    ensures AllPlain(a + b)
  {
  }

  lemma AllowedConcat(a: string, b: string)
    ensures AllAllowed(a + b) <==> AllAllowed(a) && AllAllowed(b)
  {
    if AllAllowed(a + b) {
      assert forall i :: 0 <= i < |a| ==> a[i] == (a + b)[i];
      assert forall i :: 0 <= i < |b| ==> b[i] == (a + b)[|a| + i];
    }
  }

  lemma EscapedIsAllowed(c: char)
    ensures AllAllowed(Escaped(c)) <==> IsControl(c) || IsAllowed(c)
  {
    if IsControl(c) {
      HexDigitIsRead(c as int / 16);
      HexDigitIsRead(c as int % 16);
    } else {
      assert Escaped(c)[|Escaped(c)| - 1] == c;
    }
  }

  lemma {:induction false} EscapedAllIsAllowed(s: string)
    ensures AllAllowed(EscapedAll(s)) <==> IsPrintable(s)
  {
    if s != "" {
      EscapedAllIsAllowed(s[1..]);
      EscapedIsAllowed(s[0]);
      AllowedConcat(Escaped(s[0]), EscapedAll(s[1..]));
      assert s == [s[0]] + s[1..];
    }
  }

  lemma QuotedIsAllowed(s: string)
    ensures AllAllowed(Quoted(s)) <==> IsPrintable(s)
  {
    EscapedAllIsAllowed(s);
    AllowedConcat(EscapedAll(s), ['"']);
    AllowedConcat(['"'], EscapedAll(s) + ['"']);
  }

  lemma {:induction false} SpacesArePlain(n: nat)
    ensures AllPlain(Spaces(n))
  {
    if n > 0 {
      SpacesArePlain(n - 1);
    }
  }

  predicate LineIsAllowed(line: Line) {
    AllAllowed(Text(line))
  }

  lemma FieldIsAllowed(n: nat, key: string, value: string)
    requires AllPlain(key)
    ensures LineIsAllowed(Field(n, key, value)) <==> AllAllowed(value)
  {
    SpacesArePlain(n);
    PlainIsAllowed(Spaces(n));
    PlainIsAllowed(key);
    AllowedConcat([':', ' '], value);
    AllowedConcat(key, [':', ' '] + value);
    AllowedConcat(Spaces(n), key + ([':', ' '] + value));
  }

  ghost predicate LinesAreAllowed(lines: seq<Line>) {
    forall i :: 0 <= i < |lines| ==> LineIsAllowed(lines[i])
  }

  lemma {:induction false} PrintedIsAllowed(lines: seq<Line>)
    ensures AllAllowed(Printed(lines)) <==> LinesAreAllowed(lines)
  {
    if lines != [] {
      PrintedIsAllowed(lines[1..]);
      AllowedConcat(['\n'], Printed(lines[1..]));
      AllowedConcat(Text(lines[0]), ['\n'] + Printed(lines[1..]));
      assert lines == [lines[0]] + lines[1..];
    }
  }

  lemma LinesConcat(a: seq<Line>, b: seq<Line>)
    ensures LinesAreAllowed(a + b) <==> LinesAreAllowed(a) && LinesAreAllowed(b)
  {
    if LinesAreAllowed(a + b) {
      assert forall i :: 0 <= i < |a| ==> a[i] == (a + b)[i];
      assert forall i :: 0 <= i < |b| ==> b[i] == (a + b)[|a| + i];
    }
  }

  lemma FirstCommentIsPlain()
    ensures AllPlain(COMMENT_1)
  {
    PlainConcat(" mcp add` (1.3.0, ", "ADR-0011).");
    PlainConcat("# Materialized by `agency", " mcp add` (1.3.0, " + "ADR-0011).");
  }

  lemma SecondCommentIsPlain()
    ensures AllPlain(COMMENT_2)
  {
    PlainConcat(" (they will be preserved ", "on re-render)");
    PlainConcat("# Edit the comments above", " (they will be preserved " + "on re-render)");
  }

  lemma ThirdCommentIsPlain()
    ensures AllPlain(COMMENT_3)
  {
    PlainConcat(" `#` and adding your own", ".");
    PlainConcat("# by removing the leading", " `#` and adding your own" + ".");
  }

  lemma CommentsArePlain(text: string)
    requires text == COMMENT_1 || text == COMMENT_2 || text == COMMENT_3
    ensures AllAllowed(text) && !HasBreak(text)
  {
    FirstCommentIsPlain();
    SecondCommentIsPlain();
    ThirdCommentIsPlain();
    PlainIsAllowed(text);
  }

  lemma HeaderIsAllowed()
    ensures LinesAreAllowed(HeaderLines())
  {
    CommentsArePlain(COMMENT_1);
    CommentsArePlain(COMMENT_2);
    CommentsArePlain(COMMENT_3);
    FieldIsAllowed(0, "manifest_version", "1");
  }

  lemma FirstLineApart(line: Line, rest: seq<Line>)
    ensures LinesAreAllowed([line] + rest) <==> LineIsAllowed(line) && LinesAreAllowed(rest)
  {
    LinesConcat([line], rest);
    assert [line][0] == line;
  }

  lemma QuotedFieldIsAllowed(n: nat, key: string, s: string)
    requires AllPlain(key)
    ensures LineIsAllowed(Field(n, key, Quoted(s))) <==> IsPrintable(s)
  {
    QuotedIsAllowed(s);
    FieldIsAllowed(n, key, Quoted(s));
  }

  lemma ThreeLines(a: Line, b: Line, c: Line)
    ensures LinesAreAllowed([a, b, c]) <==> LineIsAllowed(a) && LineIsAllowed(b) && LineIsAllowed(c)
  {
    assert [a, b, c] == [a] + ([b] + ([c] + []));
    FirstLineApart(a, [b] + ([c] + []));
    FirstLineApart(b, [c] + []);
    FirstLineApart(c, []);
  }

  lemma FourLines(a: Line, b: Line, c: Line, d: Line)
    ensures LinesAreAllowed([a, b, c, d])
       <==> LineIsAllowed(a) && LineIsAllowed(b) && LineIsAllowed(c) && LineIsAllowed(d)
  {
    assert [a, b, c, d] == [a] + [b, c, d];
    FirstLineApart(a, [b, c, d]);
    ThreeLines(b, c, d);
  }

  lemma KeysArePlain()
    ensures AllPlain("name") && AllPlain("description") && AllPlain("source") && AllPlain("type")
    ensures AllPlain("url") && AllPlain("provider") && AllAllowed("http") && AllAllowed("oauth")
    ensures LineIsAllowed(Opening("transport")) && LineIsAllowed(Opening("auth")) && LineIsAllowed(Blank)
  {
    AllowedConcat("transport", [':']);
    AllowedConcat("auth", [':']);
  }

  lemma FieldsAreAllowed(spec: McpServerSpec)
    ensures LinesAreAllowed(FieldLines(spec)) <==>
              IsPrintable(spec.name) && IsPrintable(spec.description) && IsPrintable(spec.sourceUrl)
  {
    KeysArePlain();
    QuotedFieldIsAllowed(0, "name", spec.name);
    QuotedFieldIsAllowed(0, "description", spec.description);
    QuotedFieldIsAllowed(0, "source", spec.sourceUrl);
    FourLines(Field(0, "name", Quoted(spec.name)), Field(0, "description", Quoted(spec.description)),
              Field(0, "source", Quoted(spec.sourceUrl)), Blank);
  }

  lemma TransportIsAllowed(t: McpTransport)
    ensures LinesAreAllowed(TransportLines(t)) <==> IsPrintable(t.url)
  {
    KeysArePlain();
    FieldIsAllowed(2, "type", "http");
    QuotedFieldIsAllowed(2, "url", t.url);
    ThreeLines(Opening("transport"), Field(2, "type", "http"), Field(2, "url", Quoted(t.url)));
  }

  lemma AuthIsAllowed(auth: Option<McpAuth>)
    ensures LinesAreAllowed(AuthLines(auth)) <==>
              (auth.Some? && auth.value.provider.Some? ==> IsPrintable(auth.value.provider.value))
  {
    KeysArePlain();
    FieldIsAllowed(2, "type", "oauth");
    match auth
    case None =>
    case Some(Oauth(None)) => ThreeLines(Blank, Opening("auth"), Field(2, "type", "oauth"));
    case Some(Oauth(Some(p))) =>
      QuotedFieldIsAllowed(2, "provider", p);
      FourLines(Blank, Opening("auth"), Field(2, "type", "oauth"), Field(2, "provider", Quoted(p)));
  }

  ghost predicate AllPrintable(spec: McpServerSpec) {
    forall s :: IsStringOf(spec, s) ==> IsPrintable(s)
  }

  lemma StringsOneByOne(spec: McpServerSpec)
    ensures AllPrintable(spec) <==>
              && IsPrintable(spec.name) && IsPrintable(spec.description) && IsPrintable(spec.sourceUrl)
              && IsPrintable(spec.transport.url)
              && (spec.auth.Some? && spec.auth.value.provider.Some? ==> IsPrintable(spec.auth.value.provider.value))
  {
    assert IsStringOf(spec, spec.name) && IsStringOf(spec, spec.description) && IsStringOf(spec, spec.sourceUrl);
    assert IsStringOf(spec, spec.transport.url);
    if spec.auth.Some? && spec.auth.value.provider.Some? {
      assert IsStringOf(spec, spec.auth.value.provider.value);
    }
  }

  lemma RenderedIsAllowed(spec: McpServerSpec)
    ensures AllAllowed(Rendered(spec)) <==> AllPrintable(spec)
  {
    HeaderIsAllowed();
    FieldsAreAllowed(spec);
    TransportIsAllowed(spec.transport);
    AuthIsAllowed(spec.auth);
    LinesConcat(HeaderLines(), FieldLines(spec));
    LinesConcat(TransportLines(spec.transport), AuthLines(spec.auth));
    LinesConcat(HeaderLines() + FieldLines(spec), TransportLines(spec.transport) + AuthLines(spec.auth));
    PrintedIsAllowed(ManifestLines(spec));
    StringsOneByOne(spec);
  }

  // ------------------------------------------------------------------
  // What is read back
  // ------------------------------------------------------------------

  ghost predicate IsHeaderComment(line: Line) {
    line.Comment? ==> line.text == COMMENT_1 || line.text == COMMENT_2 || line.text == COMMENT_3
  }

  lemma CommentsAreTheHeaders(spec: McpServerSpec)
    ensures forall i :: 0 <= i < |ManifestLines(spec)| ==> IsHeaderComment(ManifestLines(spec)[i])
  {
    assert forall i :: 0 <= i < |HeaderLines()| ==> IsHeaderComment(HeaderLines()[i]);
    assert forall i :: 0 <= i < |FieldLines(spec)| ==> IsHeaderComment(FieldLines(spec)[i]);
    assert forall i :: 0 <= i < |TransportLines(spec.transport)| ==> IsHeaderComment(TransportLines(spec.transport)[i]);
    assert forall i :: 0 <= i < |AuthLines(spec.auth)| ==> IsHeaderComment(AuthLines(spec.auth)[i]);
  }

  lemma NoBreakOutsideQuotes(spec: McpServerSpec)
    ensures var lines := SplitLines(Rendered(spec));
      forall i :: 0 <= i < |lines| && IsBlankOrComment(lines[i]) ==> !HasBreak(lines[i])
  {
    var printed := ManifestLines(spec);
    var lines := SplitLines(Rendered(spec));
    ManifestIsWellFormed(spec);
    PrintedLinesAreSplit(printed);
    CommentsAreTheHeaders(spec);
    forall i | 0 <= i < |lines| && IsBlankOrComment(lines[i]) ensures !HasBreak(lines[i]) {
      assert WellFormed(printed[i]) && IsHeaderComment(printed[i]);
      match printed[i]
      case Comment(text) => CommentsArePlain(text);
      case Blank =>
      case Opening(key) => OpeningReads(key);
      case Field(n, key, value) => FieldReads(n, key, value);
    }
  }

  // A string as a quoted scalar that follows no line break is read back.
  function FoldedString(s: string): Option<string> {
    AsRead(s, false)
  }

  /** A reader that follows YAML 1.1 refuses a rendered manifest that holds a character
      it does not allow, and reads from any other the specification with each string
      folded. */
  lemma RenderedIsFolded(spec: McpServerSpec)
    ensures ReadManifest11(Rendered(spec)) == if AllPrintable(spec) then Mapped(spec, FoldedString) else None
  {
    NoBreakOutsideQuotes(spec);
    RenderedIsAllowed(spec);
    RenderedIsRead(spec, Unquoted11);
    var f := AsQuoted(Unquoted11);
    forall s ensures f(s) == FoldedString(s) {
      QuotedIsRead(s);
    }
    MappedAlike(spec, f, FoldedString);
  }

  lemma MappedAlike(spec: McpServerSpec, f: string -> Option<string>, g: string -> Option<string>)
    requires forall s :: f(s) == g(s)
    ensures Mapped(spec, f) == Mapped(spec, g)
  {
  }

  /** It gives the specification back exactly when each of its strings is printable and
      comes back from folding, and refuses the manifest exactly when one is not printable
      or has a line that begins with a document marker; otherwise it reads another
      specification. */
  lemma RoundTripExactly11(spec: McpServerSpec)
    ensures ReadManifest11(Rendered(spec)) == Some(spec) <==>
              forall s :: IsStringOf(spec, s) ==> IsPrintable(s) && ComesBack(s)
    ensures ReadManifest11(Rendered(spec)) == None <==>
              exists s :: IsStringOf(spec, s) && (!IsPrintable(s) || HasMarker(s))
  {
    RenderedIsFolded(spec);
    MappedToItself(spec, FoldedString);
    forall s ensures FoldedString(s) == Some(s) <==> ComesBack(s)
      ensures FoldedString(s) == None <==> HasMarker(s)
    {
      ComesBackExactly(s, false);
      RefusedExactly(s, false);
    }
  }

  lemma NextLineBecomesSpace()
    ensures FoldedString(['a', NEXT_LINE, 'b']) == Some("a b")
  {
    var s := ['a', NEXT_LINE, 'b'];
    var rest := s[1..];
    assert rest == [NEXT_LINE, 'b'] && rest[1..] == ['b'] && ['b'][1..] == "";
    assert AsRead(['b'][1..], false) == Some("");
    assert ['b'] + "" == "b" && " " + "b" == " b" && ['a'] + " b" == "a b";
    assert AsRead(['b'], true) == Some("b");
    assert LooseLength(rest) == 1 && rest[..1] == [NEXT_LINE];
    assert [NEXT_LINE][1..] == "" && Breaks([NEXT_LINE]) == "\n";
    assert Fold([NEXT_LINE]) == " " && EndsLine([NEXT_LINE]);
    assert AsRead(rest, false) == Prefixed(" ", AsRead(['b'], true)) == Some(" b");
  }

  /** A next line in a description is read as a space, and nothing reports it. */
  lemma NextLineIsLost(spec: McpServerSpec)
    requires forall s :: IsStringOf(spec, s) ==> IsPrintable(s) && ComesBack(s)
    ensures ReadManifest11(Rendered(spec.(description := ['a', NEXT_LINE, 'b'])))
         == Some(spec.(description := "a b"))
  {
    var spec' := spec.(description := ['a', NEXT_LINE, 'b']);
    RenderedIsFolded(spec');
    NextLineBecomesSpace();
    forall s | IsStringOf(spec, s) ensures FoldedString(s) == Some(s) {
      ComesBackExactly(s, false);
    }
    MappedToItself(spec, FoldedString);
    forall s | IsStringOf(spec', s) ensures IsPrintable(s) {
      assert IsStringOf(spec, s) || s == ['a', NEXT_LINE, 'b'];
    }
  }
}
