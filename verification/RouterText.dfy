/** What the files of a router plugin say: which input stands under which key of the
    manifest and in which line of SKILL.md, and how scalars and numbers read back. */
module RouterText {
  import opened Wrappers
  import opened Sorting
  import opened RouterPlugin
  import opened Texts

  // ------------------------------------------------------------------
  // Lines
  // ------------------------------------------------------------------

  // Every line ends in a line feed.
  function Lines(ls: seq<string>): string {
    if ls == [] then "" else ls[0] + (['\n'] + Lines(ls[1..]))
  }

  lemma {:induction false} LinesConcat(a: seq<string>, b: seq<string>)
    ensures Lines(a + b) == Lines(a) + Lines(b)
  {
    if a == [] {
      assert a + b == b;
    } else {
      LinesConcat(a[1..], b);
      assert (a + b)[1..] == a[1..] + b;
      Associates(['\n'], Lines(a[1..]), Lines(b));
      Associates(a[0], ['\n'] + Lines(a[1..]), Lines(b));
    }
  }

  lemma LinesAdds(ls: seq<string>, line: string)
    ensures Lines(ls + [line]) == Lines(ls) + Line(line)
  {
    LinesConcat(ls, [line]);
    assert [line][1..] == [];
  }

  predicate EndsInLine(text: string) {
    text != "" && text[|text| - 1] == '\n'
  }

  // Pieces that each end in a line feed, one after the other.
  function Joined(pieces: seq<string>): string {
    if pieces == [] then "" else Joined(pieces[..|pieces| - 1]) + pieces[|pieces| - 1]
  }

  ghost predicate AreWhole(pieces: seq<string>) {
    forall p :: p in pieces ==> EndsInLine(p)
  }

  lemma JoinedAdds(pieces: seq<string>, piece: string)
    ensures Joined(pieces + [piece]) == Joined(pieces) + piece
  {
    assert (pieces + [piece])[..|pieces|] == pieces;
  }

  lemma JoinsFour(ps: seq<string>, a: string, b: string, c: string, d: string)
    ensures Joined(ps + [a] + [b] + [c] + [d]) == Joined(ps) + a + b + c + d
  {
    JoinedAdds(ps, a);
    JoinedAdds(ps + [a], b);
    JoinedAdds(ps + [a] + [b], c);
    JoinedAdds(ps + [a] + [b] + [c], d);
  }

  // ------------------------------------------------------------------
  // The manifest
  // ------------------------------------------------------------------

  // One of the pieces is the line with this value under this key.
  ghost predicate Says(pieces: seq<string>, key: string, value: string) {
    Line(key + (": " + value)) in pieces
  }

  ghost predicate SaysItsNames(pieces: seq<string>, inputs: RouterPluginInputs) {
    Says(pieces, "id", YamlScalar(inputs.pluginId)) &&
    Says(pieces, "display_name", YamlScalar(inputs.displayName)) &&
    Says(pieces, "description", YamlScalar(inputs.description)) &&
    Says(pieces, "  name", YamlScalar(inputs.pluginId))
  }

  ghost predicate SaysItsCatalog(pieces: seq<string>, inputs: RouterPluginInputs) {
    Says(pieces, "  homepage", YamlScalar("file://" + inputs.catalogSource)) &&
    Says(pieces, "    source", YamlScalar(inputs.catalogSource)) &&
    Says(pieces, "    ref", YamlScalar(inputs.catalogCommitSha)) &&
    Says(pieces, "    agents", Decimal(|inputs.agentFiles|))
  }

  lemma LiteralsEndInLine()
    ensures EndsInLine("manifest_version: 1\n\n") && EndsInLine("\nagents:\n")
    ensures EndsInLine(META_HEAD) && EndsInLine(META_AUTHOR) && EndsInLine(META_ENTRY)
  {
  }

  lemma JoinsThirteen(a: string, b: string, c: string, d: string, e: string, f: string, g: string,
                      h: string, i: string, j: string, k: string, l: string, m: string) returns (ps: seq<string>)
    ensures ps == [a, b, c, d, e, f, g, h, i, j, k, l, m]
    ensures Joined(ps) == a + b + c + d + e + f + g + h + i + j + k + l + m
  {
    assert [] + [a] == [a];
    assert Joined([a]) == "" + a == a;
    JoinsFour([a], b, c, d, e);
    JoinsFour([a] + [b] + [c] + [d] + [e], f, g, h, i);
    JoinsFour([a] + [b] + [c] + [d] + [e] + [f] + [g] + [h] + [i], j, k, l, m);
    ps := [a] + [b] + [c] + [d] + [e] + [f] + [g] + [h] + [i] + [j] + [k] + [l] + [m];
  }

  function HeadPieces(inputs: RouterPluginInputs): seq<string> {
    ["manifest_version: 1\n\n",
     Entry("id", YamlScalar(inputs.pluginId)),
     Entry("display_name", YamlScalar(inputs.displayName)),
     Entry("description", YamlScalar(inputs.description)),
     META_HEAD,
     Entry("  name", YamlScalar(inputs.pluginId)),
     META_AUTHOR,
     Entry("  homepage", YamlScalar("file://" + inputs.catalogSource)),
     META_ENTRY,
     Entry("    source", YamlScalar(inputs.catalogSource)),
     Entry("    ref", YamlScalar(inputs.catalogCommitSha)),
     Entry("    agents", Decimal(|inputs.agentFiles|)),
     "\nagents:\n"]
  }

  lemma HeadIsJoined(inputs: RouterPluginInputs)
    ensures Joined(HeadPieces(inputs)) == ManifestHead(inputs, |inputs.agentFiles|)
  {
    var ps := JoinsThirteen("manifest_version: 1\n\n",
                            Entry("id", YamlScalar(inputs.pluginId)),
                            Entry("display_name", YamlScalar(inputs.displayName)),
                            Entry("description", YamlScalar(inputs.description)),
                            META_HEAD,
                            Entry("  name", YamlScalar(inputs.pluginId)),
                            META_AUTHOR,
                            Entry("  homepage", YamlScalar("file://" + inputs.catalogSource)),
                            META_ENTRY,
                            Entry("    source", YamlScalar(inputs.catalogSource)),
                            Entry("    ref", YamlScalar(inputs.catalogCommitSha)),
                            Entry("    agents", Decimal(|inputs.agentFiles|)),
                            "\nagents:\n");
  }

  lemma EntriesEndInLine()
    ensures forall key, value :: EndsInLine(Entry(key, value))
  {
  }

  lemma WholeTogether(a: seq<string>, b: seq<string>)
    requires AreWhole(a) && AreWhole(b)
    ensures AreWhole(a + b)
  {
  }

  lemma WholeSeven(a: string, b: string, c: string, d: string, e: string, f: string, g: string)
    requires EndsInLine(a) && EndsInLine(b) && EndsInLine(c) && EndsInLine(d)
    requires EndsInLine(e) && EndsInLine(f) && EndsInLine(g)
    ensures AreWhole([a, b, c, d, e, f, g])
  {
  }

  lemma HeadIsWhole(inputs: RouterPluginInputs)
    ensures AreWhole(HeadPieces(inputs))
  {
    LiteralsEndInLine();
    EntriesEndInLine();
    var ps := HeadPieces(inputs);
    WholeSeven(ps[0], ps[1], ps[2], ps[3], ps[4], ps[5], ps[6]);
    WholeSeven(ps[6], ps[7], ps[8], ps[9], ps[10], ps[11], ps[12]);
    var first := [ps[0], ps[1], ps[2], ps[3], ps[4], ps[5], ps[6]];
    var last := [ps[6], ps[7], ps[8], ps[9], ps[10], ps[11], ps[12]];
    WholeTogether(first, last);
    assert forall p :: p in ps ==> p in first + last;
  }

  lemma NamesAreSaid(inputs: RouterPluginInputs)
    ensures SaysItsNames(HeadPieces(inputs), inputs)
  {
    var ps := HeadPieces(inputs);
    assert ps[1] in ps && ps[2] in ps && ps[3] in ps && ps[5] in ps;
  }

  lemma CatalogIsSaid(inputs: RouterPluginInputs)
    ensures SaysItsCatalog(HeadPieces(inputs), inputs)
  {
    var ps := HeadPieces(inputs);
    assert ps[7] in ps && ps[9] in ps && ps[10] in ps && ps[11] in ps;
  }

  function IdLine(slug: string): string {
    "  - id" + (": " + YamlScalar(slug))
  }

  function Each(f: string -> string, ss: seq<string>): seq<string> {
    seq(|ss|, i requires 0 <= i < |ss| => f(ss[i]))
  }

  lemma EachAdds(f: string -> string, ss: seq<string>)
    requires ss != []
    ensures Lines(Each(f, ss)) == Lines(Each(f, ss[..|ss| - 1])) + Line(f(ss[|ss| - 1]))
  {
    var front, last := ss[..|ss| - 1], ss[|ss| - 1];
    assert Each(f, ss) == Each(f, front) + [f(last)];
    LinesAdds(Each(f, front), f(last));
  }

  lemma {:induction false} AgentLinesAreThose(slugs: seq<string>)
    ensures AgentLines(slugs) == Lines(Each(IdLine, slugs))
    decreases |slugs|
  {
    if slugs != [] {
      AgentLinesAreThose(slugs[..|slugs| - 1]);
      EachAdds(IdLine, slugs);
    }
  }

  /** Every input of a manifest stands in a line of its own under its key, the number of
      agents too; then comes the list of agents, one line each in the order of their
      slugs, and nothing after it depends on the inputs. */
  lemma ManifestSays(inputs: RouterPluginInputs) returns (head: seq<string>)
    ensures AreWhole(head) && SaysItsNames(head, inputs) && SaysItsCatalog(head, inputs)
    ensures head != [] && head[|head| - 1] == "\nagents:\n"
    ensures ManifestText(inputs) ==
      Joined(head) + Lines(Each(IdLine, SlugsOf(SortBy(inputs.agentFiles, Slug)))) + MANIFEST_TAIL
  {
    head := HeadPieces(inputs);
    HeadIsJoined(inputs);
    HeadIsWhole(inputs);
    NamesAreSaid(inputs);
    CatalogIsSaid(inputs);
    AgentLinesAreThose(SlugsOf(SortBy(inputs.agentFiles, Slug)));
  }

  // ------------------------------------------------------------------
  // The entry point
  // ------------------------------------------------------------------

  function ToolItem(tool: string): string {
    "- `" + (tool + "`")
  }

  lemma {:induction false} ToolLinesAreThose(tools: seq<string>)
    ensures ToolLines(tools) == Lines(Each(ToolItem, tools))
    decreases |tools|
  {
    if tools != [] {
      ToolLinesAreThose(tools[..|tools| - 1]);
      EachAdds(ToolItem, tools);
    }
  }

  lemma EntryPiecesEndInLine()
    ensures EndsInLine("\n") && EndsInLine("\n## Catalog\n\n") && EndsInLine(ENTRY_INTRO) && EndsInLine(ENTRY_ROUTING)
  {
  }

  lemma JoinsFive(a: string, b: string, c: string, d: string, e: string) returns (ps: seq<string>)
    ensures ps == [a, b, c, d, e] && Joined(ps) == a + b + c + d + e
  {
    assert [] + [a] == [a];
    assert Joined([a]) == "" + a == a;
    JoinsFour([a], b, c, d, e);
    ps := [a] + [b] + [c] + [d] + [e];
  }

  lemma IntroSays(inputs: RouterPluginInputs) returns (ps: seq<string>)
    ensures AreWhole(ps) && Joined(ps) == EntryIntro(inputs)
    ensures ps != [] && ps[0] == Line("# " + inputs.displayName) && Line(inputs.description) in ps
  {
    EntryPiecesEndInLine();
    ps := JoinsFive(Line("# " + inputs.displayName), "\n", Line(inputs.description), "\n", ENTRY_INTRO);
  }

  lemma OutroSays(inputs: RouterPluginInputs) returns (ps: seq<string>)
    ensures AreWhole(ps) && Joined(ps) == EntryOutro(inputs, |inputs.agentFiles|)
    ensures Line("- source: `" + (inputs.catalogSource + "`")) in ps
    ensures Line("- ref: `" + (inputs.catalogCommitSha + "`")) in ps
    ensures Line("- agents: " + Decimal(|inputs.agentFiles|)) in ps
  {
    EntryPiecesEndInLine();
    ps := JoinsFive("\n## Catalog\n\n",
                    Line("- source: `" + (inputs.catalogSource + "`")),
                    Line("- ref: `" + (inputs.catalogCommitSha + "`")),
                    Line("- agents: " + Decimal(|inputs.agentFiles|)),
                    ENTRY_ROUTING);
  }

  /** SKILL.md has the display name as its title, the description, every tool in the
      order given, and the catalog's source, its commit and the number of agents, each
      in a line of its own. */
  lemma EntrySays(inputs: RouterPluginInputs) returns (intro: seq<string>, outro: seq<string>)
    ensures AreWhole(intro) && AreWhole(outro)
    ensures EntryText(inputs) == Joined(intro) + Lines(Each(ToolItem, inputs.routerSkills)) + Joined(outro)
    ensures intro != [] && intro[0] == Line("# " + inputs.displayName) && Line(inputs.description) in intro
    ensures Line("- source: `" + (inputs.catalogSource + "`")) in outro
    ensures Line("- ref: `" + (inputs.catalogCommitSha + "`")) in outro
    ensures Line("- agents: " + Decimal(|inputs.agentFiles|)) in outro
  {
    intro := IntroSays(inputs);
    outro := OutroSays(inputs);
    ToolLinesAreThose(inputs.routerSkills);
  }

  // ------------------------------------------------------------------
  // Scalars and numbers
  // ------------------------------------------------------------------

  // What stands before the first quote that is not escaped, if nothing comes after it.
  function Unquoted(t: string): Option<string> {
    if t == "" then None
    else if t[0] == '"' then if |t| == 1 then Some("") else None
    else if t[0] == '\\' then
      if |t| == 1 then None
      else match Unquoted(t[2..]) case None => None case Some(s) => Some([t[1]] + s)
    else match Unquoted(t[1..]) case None => None case Some(s) => Some([t[0]] + s)
  }

  function ReadScalar(t: string): Option<string> {
    if t != "" && t[0] == '"' then Unquoted(t[1..]) else Some(t)
  }

  lemma {:induction false} EscapeIsRead(s: string)
    ensures Unquoted(Escape(s) + ['"']) == Some(s) && |Escape(s)| >= |s|
  {
    if s != "" {
      var rest := Escape(s[1..]) + ['"'];
      EscapeIsRead(s[1..]);
      assert s == [s[0]] + s[1..];
      if s[0] == '\\' || s[0] == '"' {
        assert Escape(s) + ['"'] == ['\\', s[0]] + rest;
        assert (['\\', s[0]] + rest)[2..] == rest;
      } else {
        assert Escape(s) + ['"'] == [s[0]] + rest;
        assert ([s[0]] + rest)[1..] == rest;
      }
    }
  }

  /** A scalar reads back as the string, and is bare exactly if the string is not empty,
      has no character that changes how YAML reads it, and no space at either end. */
  lemma ScalarIsRead(s: string)
    ensures ReadScalar(YamlScalar(s)) == Some(s)
    ensures YamlScalar(s) == s <==>
              s != "" && s[0] != ' ' && s[|s| - 1] != ' ' &&
              forall i :: 0 <= i < |s| ==> s[i] !in ":#\"'\n\t[]{},!?>|&*%@`"
  {
    EscapeIsRead(s);
    assert (['"'] + Escape(s) + ['"'])[1..] == Escape(s) + ['"'];
    if s == "" {
      assert YamlScalar(s) == "\"\"" && "\"\""[1..] == "\"";
    } else if YamlScalar(s) == s {
      assert !ChangesParse(s[0]);
    }
  }

  function DigitsValue(t: string): int {
    if t == "" then 0 else DigitsValue(t[..|t| - 1]) * 10 + (t[|t| - 1] as int - '0' as int)
  }

  /** The digits of a number, without leading zeros. */
  lemma {:induction false} DecimalIsRead(n: nat)
    ensures DigitsValue(Decimal(n)) == n
    ensures forall i :: 0 <= i < |Decimal(n)| ==> '0' <= Decimal(n)[i] <= '9'
    ensures Decimal(n)[0] == '0' <==> n == 0
  {
    var t := Decimal(n);
    if n < 10 {
      assert t[..0] == "";
    } else {
      DecimalIsRead(n / 10);
      assert t[..|t| - 1] == Decimal(n / 10);
    }
  }

  // ------------------------------------------------------------------
  // The files
  // ------------------------------------------------------------------

  lemma SkillPathsAreInSkills(slug: string)
    ensures |SkillPath(slug)| > 7 && SkillPath(slug)[..7] == "skills/" && SkillPath(slug)[7..] == slug + ".md"
    ensures SkillPath(slug) != "manifest.yaml" && SkillPath(slug) != "SKILL.md"
  {
    assert SkillPath(slug)[0] == 's' && "manifest.yaml"[0] == 'm' && "SKILL.md"[0] == 'S';
  }

  lemma SkillsLeaveTexts(sorted: seq<AgentFile>)
    ensures "manifest.yaml" !in SkillPaths(sorted) && "SKILL.md" !in SkillPaths(sorted)
  {
    forall i | 0 <= i < |sorted|
      ensures SkillPaths(sorted)[i] != "manifest.yaml" && SkillPaths(sorted)[i] != "SKILL.md"
    {
      SkillPathsAreInSkills(sorted[i].slug);
    }
  }

  // At every other path lies what was there before.
  ghost predicate TextsLieThere(all: map<string, string>, before: map<string, string>, manifest: string, entry: string,
                                paths: seq<string>) {
    (forall p :: p in all && p !in paths <==> (p in before || p == "manifest.yaml" || p == "SKILL.md") && p !in paths) &&
    (forall p :: p in all && p !in paths ==>
      all[p] == if p == "SKILL.md" then entry else if p == "manifest.yaml" then manifest else before[p])
  }

  // The last agent with a path has its body there.
  ghost predicate BodiesLieThere(all: map<string, string>, sorted: seq<AgentFile>) {
    forall i :: 0 <= i < |sorted| && SkillPath(sorted[i].slug) !in SkillPaths(sorted)[i + 1..] ==>
      SkillPath(sorted[i].slug) in all && all[SkillPath(sorted[i].slug)] == sorted[i].body
  }

  lemma {:induction false} WrittenBodies(files: map<string, string>, agents: seq<AgentFile>)
    ensures BodiesLieThere(WithSkills(files, agents), agents)
    decreases |agents|
  {
    if agents != [] {
      var front, last := agents[..|agents| - 1], agents[|agents| - 1];
      WrittenBodies(files, front);
      assert SkillPaths(agents) == SkillPaths(front) + [SkillPath(last.slug)];
      forall i | 0 <= i < |front| && SkillPath(agents[i].slug) !in SkillPaths(agents)[i + 1..]
        ensures SkillPath(front[i].slug) !in SkillPaths(front)[i + 1..] && SkillPath(front[i].slug) != SkillPath(last.slug)
      {
        assert SkillPaths(agents)[i + 1..] == SkillPaths(front)[i + 1..] + [SkillPath(last.slug)];
      }
    }
  }

  lemma {:induction false} OtherPathsStay(files: map<string, string>, agents: seq<AgentFile>, path: string)
    requires path !in SkillPaths(agents)
    ensures path in WithSkills(files, agents) <==> path in files
    ensures path in files ==> WithSkills(files, agents)[path] == files[path]
    decreases |agents|
  {
    if agents != [] {
      var front, last := agents[..|agents| - 1], agents[|agents| - 1];
      assert SkillPaths(agents) == SkillPaths(front) + [SkillPath(last.slug)];
      OtherPathsStay(files, front, path);
    }
  }

  /** Where the files of a plugin lie: the manifest, SKILL.md, and for each slug the body
      of the last agent with it, every other file as it was. */
  lemma FilesLieThere(files: map<string, string>, inputs: RouterPluginInputs)
    ensures var sorted := SortBy(inputs.agentFiles, Slug);
      BodiesLieThere(Rendered(files, inputs), sorted) &&
      "manifest.yaml" !in SkillPaths(sorted) && "SKILL.md" !in SkillPaths(sorted) &&
      TextsLieThere(Rendered(files, inputs), files, ManifestText(inputs), EntryText(inputs), SkillPaths(sorted))
  {
    var sorted := SortBy(inputs.agentFiles, Slug);
    SkillsLeaveTexts(sorted);
    LieThere(files, ManifestText(inputs), EntryText(inputs), sorted);
  }

  lemma LieThere(files: map<string, string>, manifest: string, entry: string, sorted: seq<AgentFile>)
    ensures var all := WithSkills(files[MANIFEST_PATH := manifest][ENTRY_PATH := entry], sorted);
      BodiesLieThere(all, sorted) && TextsLieThere(all, files, manifest, entry, SkillPaths(sorted))
  {
    var texts := files[MANIFEST_PATH := manifest][ENTRY_PATH := entry];
    WrittenBodies(texts, sorted);
    forall p | p !in SkillPaths(sorted)
      ensures p in WithSkills(texts, sorted) <==> p in texts
      ensures p in texts ==> WithSkills(texts, sorted)[p] == texts[p]
    {
      OtherPathsStay(texts, sorted, p);
    }
  }
  /** What is reported of a plugin: the paths of its skill files in sorted order, the
      commit, and the hashes of the manifest and of the slugs and bodies line by line. */
  lemma LayoutIsThat(inputs: RouterPluginInputs, hash: string -> string)
    ensures var layout, sorted := LayoutOf(inputs, hash), SortBy(inputs.agentFiles, Slug);
      && layout.catalogCommitSha == inputs.catalogCommitSha
      && layout.manifestSha256 == hash(ManifestText(inputs))
      && layout.skillsSha256 == hash(Lines(SlugsAndBodies(sorted)))
      && |layout.skillPaths| == |sorted|
      && forall i :: 0 <= i < |sorted| ==> layout.skillPaths[i] == "skills/" + sorted[i].slug + ".md"
  {
    HashInputIsThat(SortBy(inputs.agentFiles, Slug));
  }

  function SlugsAndBodies(agents: seq<AgentFile>): seq<string> {
    if agents == [] then [] else [agents[0].slug, agents[0].body] + SlugsAndBodies(agents[1..])
  }

  lemma {:induction false} SlugsAndBodiesAppend(agents: seq<AgentFile>, last: AgentFile)
    ensures SlugsAndBodies(agents + [last]) == SlugsAndBodies(agents) + [last.slug] + [last.body]
  {
    if agents == [] {
      assert [] + [last] == [last] && [last][1..] == [];
    } else {
      SlugsAndBodiesAppend(agents[1..], last);
      assert (agents + [last])[1..] == agents[1..] + [last];
    }
  }

  lemma {:induction false} HashInputIsThat(agents: seq<AgentFile>)
    ensures HashInput(agents) == Lines(SlugsAndBodies(agents))
    decreases |agents|
  {
    if agents != [] {
      var front, last := agents[..|agents| - 1], agents[|agents| - 1];
      HashInputIsThat(front);
      assert agents == front + [last];
      SlugsAndBodiesAppend(front, last);
      LinesAdds(SlugsAndBodies(front), last.slug);
      LinesAdds(SlugsAndBodies(front) + [last.slug], last.body);
      Associates(HashInput(front), last.slug + "\n", last.body + "\n");
      Associates(last.slug, "\n", last.body + "\n");
    }
  }
}
