/** The router plugin: one skill file per agent, a manifest that lists the agents, and
    a hash over all of them, rendered in the order of the agents' slugs. */
module RouterPlugin {
  import opened Wrappers
  import opened Sorting
  import Permutations
  import Slugs

  datatype AgentFile = AgentFile(slug: string, body: string)

  datatype RouterPluginInputs = RouterPluginInputs(pluginId: string, displayName: string, description: string,
                                                   catalogSource: string, catalogCommitSha: string,
                                                   agentFiles: seq<AgentFile>, routerSkills: seq<string>)

  datatype RouterPluginLayout = RouterPluginLayout(skillPaths: seq<string>, catalogCommitSha: string,
                                                   manifestSha256: string, skillsSha256: string)

  datatype SchemaError = BadPluginId | NoAgentFiles | BadAgentSlug(slug: string)

  function Slug(a: AgentFile): string {
    a.slug
  }

  // ------------------------------------------------------------------
  // The manifest
  // ------------------------------------------------------------------

  predicate ChangesParse(c: char) {
    c in ":#\"'\n\t[]{},!?>|&*%@`"
  }

  function Escape(s: string): string {
    if s == "" then ""
    else (if s[0] == '\\' || s[0] == '"' then ['\\', s[0]] else [s[0]]) + Escape(s[1..])
  }

  // A bare scalar where that is safe, a quoted one otherwise.
  function YamlScalar(s: string): string {
    if s == "" then "\"\""
    else if (forall i :: 0 <= i < |s| ==> !ChangesParse(s[i])) && s[0] != ' ' && s[|s| - 1] != ' ' then s
    else ['"'] + Escape(s) + ['"']
  }

  function Line(line: string): string {
    line + "\n"
  }

  function Entry(key: string, value: string): string {
    Line(key + (": " + value))
  }

  // Decimal digits.
  function Decimal(n: nat): string {
    if n < 10 then [('0' as int + n) as char] else Decimal(n / 10) + [('0' as int + n % 10) as char]
  }

  const META_HEAD: string :=
    "\nprivacy: open\n\n" + "plugin_meta:\n" + "  schema_version: 1\n"

  const META_AUTHOR: string :=
    "  version: 0.1.0\n" + "  author: agent-dep-platform\n"

  const META_ENTRY: string :=
    "  license: MIT\n" + "  type: router\n" + "  entry: SKILL.md\n" + "  catalog:\n"

  // Everything before the list of agents; of the agents only their number is used.
  function ManifestHead(inputs: RouterPluginInputs, agents: nat): string {
    "manifest_version: 1\n\n"
    + Entry("id", YamlScalar(inputs.pluginId))
    + Entry("display_name", YamlScalar(inputs.displayName))
    + Entry("description", YamlScalar(inputs.description))
    + META_HEAD
    + Entry("  name", YamlScalar(inputs.pluginId))
    + META_AUTHOR
    + Entry("  homepage", YamlScalar("file://" + inputs.catalogSource))
    + META_ENTRY
    + Entry("    source", YamlScalar(inputs.catalogSource))
    + Entry("    ref", YamlScalar(inputs.catalogCommitSha))
    + Entry("    agents", Decimal(agents)) + "\nagents:\n"
  }

  const MANIFEST_TAIL: string :=
    "\nrelationships:\n  edges: []\n\n" + "shared_resources: []\n\n"
    + "install_modes:\n  routing: kanban\n" + "  auto_install_hermes: false\n"

  function AgentLine(slug: string): string {
    Entry("  - id", YamlScalar(slug))
  }

  function AgentLines(slugs: seq<string>): string {
    if slugs == [] then "" else AgentLines(slugs[..|slugs| - 1]) + AgentLine(slugs[|slugs| - 1])
  }

  function SlugsOf(files: seq<AgentFile>): seq<string> {
    seq(|files|, i requires 0 <= i < |files| => files[i].slug)
  }

  function ManifestText(inputs: RouterPluginInputs): string {
    ManifestHead(inputs, |inputs.agentFiles|) + AgentLines(SlugsOf(SortBy(inputs.agentFiles, Slug))) + MANIFEST_TAIL
  }

  lemma OneMoreSlug(files: seq<AgentFile>, i: nat)
    requires i < |files|
    ensures SlugsOf(files)[..i + 1] == SlugsOf(files)[..i] + [files[i].slug]
    ensures AgentLines(SlugsOf(files)[..i + 1]) == AgentLines(SlugsOf(files)[..i]) + AgentLine(files[i].slug)
  {
    assert SlugsOf(files)[..i + 1][..i] == SlugsOf(files)[..i];
  }

  method BuildManifestYaml(inputs: RouterPluginInputs) returns (out: string)
    ensures out == ManifestText(inputs)
  {
    var head := ManifestHead(inputs, |inputs.agentFiles|);
    var sorted := SortBy(inputs.agentFiles, Slug);
    var lines := "";
    for i := 0 to |sorted|
      invariant lines == AgentLines(SlugsOf(sorted)[..i])
    {
      OneMoreSlug(sorted, i);
      lines := lines + AgentLine(sorted[i].slug);
    }
    assert SlugsOf(sorted)[..|sorted|] == SlugsOf(sorted);
    out := head + lines + MANIFEST_TAIL;
  }

  // ------------------------------------------------------------------
  // The entry point
  // ------------------------------------------------------------------

  const ENTRY_INTRO: string :=
    "This plugin is a lazy router for the agency-agents catalog. "
    + "Agents are not loaded into context until the user invokes a router tool. "
    + "The four router tools are listed below verbatim \U{2014} Hermes discovers them by name.\n\n"
    + "## Tools\n\n"

  const ENTRY_ROUTING: string :=
    "\n## Routing\n\n"
    + "`agency_agents_search` \U{2014} list agent slugs + one-line summaries.\n"
    + "`agency_agents_inspect` \U{2014} show the frontmatter + the first paragraph of a single agent.\n"
    + "`agency_agents_load` \U{2014} read the full body of a single agent into context.\n"
    + "`agency_agents_delegate` \U{2014} switch the active persona to the named agent.\n"

  function EntryIntro(inputs: RouterPluginInputs): string {
    Line("# " + inputs.displayName) + "\n" + Line(inputs.description) + "\n" + ENTRY_INTRO
  }

  function ToolLine(tool: string): string {
    Line("- `" + (tool + "`"))
  }

  function ToolLines(tools: seq<string>): string {
    if tools == [] then "" else ToolLines(tools[..|tools| - 1]) + ToolLine(tools[|tools| - 1])
  }

  // Of the agents only their number is used.
  function EntryOutro(inputs: RouterPluginInputs, agents: nat): string {
    "\n## Catalog\n\n"
    + Line("- source: `" + (inputs.catalogSource + "`"))
    + Line("- ref: `" + (inputs.catalogCommitSha + "`"))
    + Line("- agents: " + Decimal(agents))
    + ENTRY_ROUTING
  }

  function EntryText(inputs: RouterPluginInputs): string {
    EntryIntro(inputs) + ToolLines(inputs.routerSkills) + EntryOutro(inputs, |inputs.agentFiles|)
  }

  method BuildEntryPointMd(inputs: RouterPluginInputs) returns (out: string)
    ensures out == EntryText(inputs)
  {
    var tools := "";
    for i := 0 to |inputs.routerSkills|
      invariant tools == ToolLines(inputs.routerSkills[..i])
    {
      assert inputs.routerSkills[..i + 1][..i] == inputs.routerSkills[..i];
      tools := tools + ToolLine(inputs.routerSkills[i]);
    }
    assert inputs.routerSkills[..|inputs.routerSkills|] == inputs.routerSkills;
    out := EntryIntro(inputs) + tools + EntryOutro(inputs, |inputs.agentFiles|);
  }

  // ------------------------------------------------------------------
  // The skill files
  // ------------------------------------------------------------------

  function SkillPath(slug: string): string {
    "skills/" + slug + ".md"
  }

  // The files after those agents have been written, in that order.
  function WithSkills(files: map<string, string>, agents: seq<AgentFile>): map<string, string> {
    if agents == [] then files
    else
      var last := agents[|agents| - 1];
      WithSkills(files, agents[..|agents| - 1])[SkillPath(last.slug) := last.body]
  }

  // What is hashed over the agents, in that order.
  function HashInput(agents: seq<AgentFile>): string {
    if agents == [] then ""
    else
      var last := agents[|agents| - 1];
      HashInput(agents[..|agents| - 1]) + (last.slug + ("\n" + (last.body + "\n")))
  }

  function SkillPaths(agents: seq<AgentFile>): seq<string> {
    seq(|agents|, i requires 0 <= i < |agents| => SkillPath(agents[i].slug))
  }

  // The plugin's directory.
  class PluginDir {
    var files: map<string, string>

    constructor ()
      ensures files == map[]
    {
      files := map[];
    }

    method AtomicWrite(path: string, text: string)
      modifies this
      ensures files == old(files)[path := text]
    {
      files := files[path := text];
    }

    method WriteSkills(sorted: seq<AgentFile>) returns (hashed: string, skillPaths: seq<string>)
      modifies this
      ensures files == WithSkills(old(files), sorted)
      ensures hashed == HashInput(sorted) && skillPaths == SkillPaths(sorted)
    {
      hashed, skillPaths := "", [];
      for i := 0 to |sorted|
        invariant files == WithSkills(old(files), sorted[..i])
        invariant hashed == HashInput(sorted[..i]) && skillPaths == SkillPaths(sorted[..i])
      {
        assert sorted[..i + 1][..i] == sorted[..i];
        var agent := sorted[i];
        AtomicWrite(SkillPath(agent.slug), agent.body);
        hashed := hashed + (agent.slug + ("\n" + (agent.body + "\n")));
        skillPaths := skillPaths + [SkillPath(agent.slug)];
      }
      assert sorted[..|sorted|] == sorted;
    }
  }

  predicate SlugsAreSafe(files: seq<AgentFile>) {
    forall i :: 0 <= i < |files| ==> Slugs.IsSafeSlug(files[i].slug)
  }

  predicate IsFirstUnsafe(files: seq<AgentFile>, slug: string) {
    exists i :: 0 <= i < |files| && files[i].slug == slug && !Slugs.IsSafeSlug(slug) && SlugsAreSafe(files[..i])
  }

  // Which check failed first.
  predicate ErrorFits(inputs: RouterPluginInputs, e: SchemaError) {
    match e
    case BadPluginId => !Slugs.IsSafeSlug(inputs.pluginId)
    case NoAgentFiles => Slugs.IsSafeSlug(inputs.pluginId) && inputs.agentFiles == []
    case BadAgentSlug(slug) => Slugs.IsSafeSlug(inputs.pluginId) && IsFirstUnsafe(inputs.agentFiles, slug)
  }

  method FirstUnsafeSlug(files: seq<AgentFile>) returns (bad: Option<string>)
    ensures bad.None? <==> SlugsAreSafe(files)
    ensures bad.Some? ==> IsFirstUnsafe(files, bad.value)
  {
    for i := 0 to |files|
      invariant forall k :: 0 <= k < i ==> Slugs.IsSafeSlug(files[k].slug)
    {
      if !Slugs.IsSafeSlug(files[i].slug) {
        return Some(files[i].slug);
      }
    }
    bad := None;
  }

  const MANIFEST_PATH := "manifest.yaml"
  const ENTRY_PATH := "SKILL.md"

  // The directory and the layout with those texts.
  function WithTexts(files: map<string, string>, inputs: RouterPluginInputs, manifest: string, entry: string)
    : map<string, string> {
    WithSkills(files[MANIFEST_PATH := manifest][ENTRY_PATH := entry], SortBy(inputs.agentFiles, Slug))
  }

  function LayoutWith(inputs: RouterPluginInputs, manifest: string, hash: string -> string): RouterPluginLayout {
    var sorted := SortBy(inputs.agentFiles, Slug);
    RouterPluginLayout(SkillPaths(sorted), inputs.catalogCommitSha, hash(manifest), hash(HashInput(sorted)))
  }

  // Those of a plugin whose inputs pass.
  function Rendered(files: map<string, string>, inputs: RouterPluginInputs): map<string, string> {
    WithTexts(files, inputs, ManifestText(inputs), EntryText(inputs))
  }

  function LayoutOf(inputs: RouterPluginInputs, hash: string -> string): RouterPluginLayout {
    LayoutWith(inputs, ManifestText(inputs), hash)
  }

  method WriteTexts(dir: PluginDir, inputs: RouterPluginInputs, manifest: string, entry: string, hash: string -> string)
    returns (layout: RouterPluginLayout)
    modifies dir
    ensures dir.files == WithTexts(old(dir.files), inputs, manifest, entry)
    ensures layout == LayoutWith(inputs, manifest, hash)
  {
    dir.AtomicWrite(MANIFEST_PATH, manifest);
    dir.AtomicWrite(ENTRY_PATH, entry);
    var sorted := SortBy(inputs.agentFiles, Slug);
    var hashed, skillPaths := dir.WriteSkills(sorted);
    layout := RouterPluginLayout(skillPaths, inputs.catalogCommitSha, hash(manifest), hash(hashed));
  }

  method PluginTexts(inputs: RouterPluginInputs) returns (manifest: string, entry: string)
    ensures manifest == ManifestText(inputs)
    ensures entry == EntryText(inputs)
  {
    manifest := BuildManifestYaml(inputs);
    entry := BuildEntryPointMd(inputs);
  }

  method WritePlugin(dir: PluginDir, inputs: RouterPluginInputs, hash: string -> string)
    returns (layout: RouterPluginLayout)
    modifies dir
    ensures dir.files == Rendered(old(dir.files), inputs)
    ensures layout == LayoutOf(inputs, hash)
  {
    var manifest, entry := PluginTexts(inputs);
    layout := WriteTexts(dir, inputs, manifest, entry, hash);
  }

  method MaterializeRouterPlugin(dir: PluginDir, inputs: RouterPluginInputs, hash: string -> string)
    returns (r: Result<RouterPluginLayout, SchemaError>)
    modifies dir
    ensures r.Success? <==>
              Slugs.IsSafeSlug(inputs.pluginId) && inputs.agentFiles != [] && SlugsAreSafe(inputs.agentFiles)
    ensures r.Failure? ==> ErrorFits(inputs, r.error) && dir.files == old(dir.files)
    ensures r.Success? ==> dir.files == Rendered(old(dir.files), inputs) && r.value == LayoutOf(inputs, hash)
  {
    if !Slugs.IsSafeSlug(inputs.pluginId) {
      return Failure(BadPluginId);
    }
    if inputs.agentFiles == [] {
      return Failure(NoAgentFiles);
    }
    var bad := FirstUnsafeSlug(inputs.agentFiles);
    if bad.Some? {
      return Failure(BadAgentSlug(bad.value));
    }
    var layout := WritePlugin(dir, inputs, hash);
    r := Success(layout);
  }

  // ------------------------------------------------------------------
  // The order of the agents
  // ------------------------------------------------------------------

  function Itself(s: string): string {
    s
  }

  lemma {:induction false} SlugsInAnyOrder(a: seq<AgentFile>, b: seq<AgentFile>)
    requires multiset(a) == multiset(b)
    ensures multiset(SlugsOf(a)) == multiset(SlugsOf(b))
    decreases |a|
  {
    if a == [] {
      Permutations.EmptyHasNoOther(b);
    } else {
      var front := a[..|a| - 1];
      var i := Permutations.TakeOut(a, b);
      SlugsInAnyOrder(front, b[..i] + b[i + 1..]);
      assert SlugsOf(a) == SlugsOf(front) + [a[|a| - 1].slug];
      assert SlugsOf(b) == SlugsOf(b[..i]) + ([b[i].slug] + SlugsOf(b[i + 1..]));
      assert SlugsOf(b[..i] + b[i + 1..]) == SlugsOf(b[..i]) + SlugsOf(b[i + 1..]);
    }
  }

  lemma SortedSlugsInAnyOrder(a: seq<AgentFile>, b: seq<AgentFile>)
    requires multiset(a) == multiset(b)
    ensures SlugsOf(SortBy(a, Slug)) == SlugsOf(SortBy(b, Slug))
  {
    var x, y := SortBy(a, Slug), SortBy(b, Slug);
    SortSorts(a, Slug);
    SortSorts(b, Slug);
    SortPermutes(a, Slug);
    SortPermutes(b, Slug);
    SlugsInAnyOrder(x, y);
    SlugsAreSorted(x);
    SlugsAreSorted(y);
    SortedIsUnique(SlugsOf(x), SlugsOf(y), Itself);
  }

  lemma SlugsAreSorted(files: seq<AgentFile>)
    requires Sorted(files, Slug)
    ensures Sorted(SlugsOf(files), Itself)
  {
    forall i, j | 0 <= i < j < |files| ensures !Less(Itself(SlugsOf(files)[j]), Itself(SlugsOf(files)[i])) {
      assert !Less(Slug(files[j]), Slug(files[i]));
    }
  }

  /** Reordering the agents never changes the manifest or the entry point, even if
      slugs repeat. */
  lemma ManifestForgetsOrder(inputs: RouterPluginInputs, other: seq<AgentFile>)
    requires multiset(other) == multiset(inputs.agentFiles)
    ensures ManifestText(inputs.(agentFiles := other)) == ManifestText(inputs)
    ensures EntryText(inputs.(agentFiles := other)) == EntryText(inputs)
  {
    assert |multiset(other)| == |other| && |multiset(inputs.agentFiles)| == |inputs.agentFiles|;
    SortedSlugsInAnyOrder(other, inputs.agentFiles);
  }

  // The skill files of a plugin that starts empty.
  function Skills(files: seq<AgentFile>): map<string, string> {
    WithSkills(map[], SortBy(files, Slug))
  }

  predicate SameSlugSameBody(files: seq<AgentFile>) {
    forall i, j :: 0 <= i < |files| && 0 <= j < |files| && files[i].slug == files[j].slug ==>
      files[i].body == files[j].body
  }

  ghost predicate OrderIsForgotten(files: seq<AgentFile>) {
    forall other: seq<AgentFile> :: multiset(other) == multiset(files) ==>
      Skills(other) == Skills(files) && HashInput(SortBy(other, Slug)) == HashInput(SortBy(files, Slug))
  }

  lemma SkillPathIsInjective(a: string, b: string)
    ensures SkillPath(a) == SkillPath(b) <==> a == b
  {
    assert SkillPath(a)[7..] == a + ".md" && SkillPath(b)[7..] == b + ".md";
    if SkillPath(a) == SkillPath(b) {
      assert |a| == |b|;
      assert a == (a + ".md")[..|a|] && b == (b + ".md")[..|b|];
    }
  }

  // The last agent with a slug wins.
  lemma {:induction false} LastBodyWins(agents: seq<AgentFile>, slug: string)
    requires WithKey(agents, Slug, slug) != []
    ensures SkillPath(slug) in WithSkills(map[], agents)
    ensures var same := WithKey(agents, Slug, slug);
      WithSkills(map[], agents)[SkillPath(slug)] == same[|same| - 1].body
    decreases |agents|
  {
    var front, last := agents[..|agents| - 1], agents[|agents| - 1];
    WithKeyAppends(front, last, slug);
    assert front + [last] == agents;
    SkillPathIsInjective(last.slug, slug);
    if last.slug != slug {
      LastBodyWins(front, slug);
    }
  }

  lemma {:induction false} WithKeyAppends(agents: seq<AgentFile>, last: AgentFile, slug: string)
    ensures WithKey(agents + [last], Slug, slug) == WithKey(agents, Slug, slug) + (if last.slug == slug then [last] else [])
  {
    var all := agents + [last];
    if agents == [] {
      assert all == [last] && all[1..] == [];
    } else {
      var first, rest := agents[0], agents[1..];
      WithKeyAppends(rest, last, slug);
      assert all[0] == first && all[1..] == rest + [last];
      if first.slug == slug {
        assert WithKey(all, Slug, slug) == [first] + WithKey(all[1..], Slug, slug);
        assert WithKey(agents, Slug, slug) == [first] + WithKey(rest, Slug, slug);
      }
    }
  }

  // The given file in the last place, the others before it.
  lemma MovedLast(files: seq<AgentFile>, i: nat) returns (other: seq<AgentFile>)
    requires i < |files|
    ensures multiset(other) == multiset(files)
    ensures Skills(other) == WithSkills(map[], SortBy(other, Slug)) && SkillPath(files[i].slug) in Skills(other)
    ensures Skills(other)[SkillPath(files[i].slug)] == files[i].body
  {
    var rest := files[..i] + files[i + 1..];
    other := rest + [files[i]];
    assert files == files[..i] + ([files[i]] + files[i + 1..]);
    WithKeyAppends(rest, files[i], files[i].slug);
    SortIsStable(other, Slug, files[i].slug);
    LastBodyWins(SortBy(other, Slug), files[i].slug);
  }

  /** Reordering the agents never changes the skill files or what is hashed, exactly
      when agents with the same slug have the same body. */
  lemma OrderIsForgottenExactly(files: seq<AgentFile>)
    ensures OrderIsForgotten(files) <==> SameSlugSameBody(files)
  {
    if SameSlugSameBody(files) {
      assert KeyDetermines(files, Slug);
      forall other: seq<AgentFile> | multiset(other) == multiset(files)
        ensures Skills(other) == Skills(files) && HashInput(SortBy(other, Slug)) == HashInput(SortBy(files, Slug))
      {
        SortForgetsOrder(files, other, Slug);
      }
    }
    if OrderIsForgotten(files) {
      forall i, j | 0 <= i < |files| && 0 <= j < |files| && files[i].slug == files[j].slug
        ensures files[i].body == files[j].body
      {
        var withI := MovedLast(files, i);
        var withJ := MovedLast(files, j);
        assert Skills(withI) == Skills(files) == Skills(withJ);
      }
    }
  }
}
