/** The text hashed over a router plugin's agents, and when it fixes the agents. */
module RouterHash {
  import opened Segments
  import opened Sorting
  import opened RouterPlugin
  import Slugs
  import opened Texts

  // The lines of the hashed text: each slug, then the lines of its body.
  function LinesOf(agents: seq<AgentFile>): seq<string> {
    if agents == [] then []
    else
      var last := agents[|agents| - 1];
      LinesOf(agents[..|agents| - 1]) + ([last.slug] + Cut(last.body, '\n'))
  }

  lemma SafeSlugIsOneLine(slug: string)
    requires Slugs.IsSafeSlug(slug)
    ensures Cut(slug, '\n') == [slug]
  {
    forall i | 0 <= i < |slug| ensures slug[i] != '\n' {
      assert Slugs.IsNameByte(slug[i] as nat);
    }
    CutWithoutSeparator(slug, '\n');
  }

  lemma CutOfBlock(a: AgentFile)
    requires Slugs.IsSafeSlug(a.slug)
    ensures Cut(a.slug + ("\n" + (a.body + "\n")), '\n') == ([a.slug] + Cut(a.body, '\n')) + [""]
  {
    SafeSlugIsOneLine(a.slug);
    assert "\n" + (a.body + "\n") == ['\n'] + (a.body + (['\n'] + ""));
    CutOfJoined(a.slug, a.body + (['\n'] + ""), '\n');
    CutOfJoined(a.body, "", '\n');
    assert [a.slug] + (Cut(a.body, '\n') + [""]) == ([a.slug] + Cut(a.body, '\n')) + [""];
  }

  lemma OneMoreBlock(text: string, lines: seq<string>, block: string, more: seq<string>)
    requires text == "" || text[|text| - 1] == '\n'
    requires Cut(text, '\n') == lines + [""] && Cut(block, '\n') == more + [""]
    ensures Cut(text + block, '\n') == (lines + more) + [""]
  {
    CutAfterSeparator(text, block, '\n');
    assert Front(lines + [""]) == lines;
    Associates(lines, more, [""]);
  }

  lemma {:induction false} CutOfHashInput(agents: seq<AgentFile>)
    requires SlugsAreSafe(agents)
    ensures Cut(HashInput(agents), '\n') == LinesOf(agents) + [""]
    ensures agents != [] ==> HashInput(agents) != "" && HashInput(agents)[|HashInput(agents)| - 1] == '\n'
  {
    if agents != [] {
      var front, last := agents[..|agents| - 1], agents[|agents| - 1];
      CutOfHashInput(front);
      CutOfBlock(last);
      var block := last.slug + ("\n" + (last.body + "\n"));
      OneMoreBlock(HashInput(front), LinesOf(front), block, [last.slug] + Cut(last.body, '\n'));
      assert block[|block| - 1] == '\n';
    }
  }

  lemma SameInputExactly(a: seq<AgentFile>, b: seq<AgentFile>)
    requires SlugsAreSafe(a) && SlugsAreSafe(b)
    ensures HashInput(a) == HashInput(b) <==> LinesOf(a) == LinesOf(b)
  {
    CutOfHashInput(a);
    CutOfHashInput(b);
    if LinesOf(a) == LinesOf(b) {
      CutIsInjective(HashInput(a), HashInput(b), '\n');
    }
    if HashInput(a) == HashInput(b) {
      assert (LinesOf(a) + [""])[..|LinesOf(a)|] == LinesOf(a) && (LinesOf(b) + [""])[..|LinesOf(b)|] == LinesOf(b);
    }
  }

  lemma LinesOfOne(a: AgentFile)
    ensures LinesOf([a]) == [a.slug] + Cut(a.body, '\n')
  {
    assert [a][..0] == [];
  }

  lemma {:induction false} LinesOfConcat(a: seq<AgentFile>, b: seq<AgentFile>)
    ensures LinesOf(a + b) == LinesOf(a) + LinesOf(b)
  {
    if b == [] {
      assert a + b == a;
    } else {
      var front, last := b[..|b| - 1], b[|b| - 1];
      LinesOfConcat(a, front);
      assert (a + b)[..|a + b| - 1] == a + front;
      Associates(LinesOf(a), LinesOf(front), [last.slug] + Cut(last.body, '\n'));
    }
  }

  // ------------------------------------------------------------------
  // When the text fixes the agents
  // ------------------------------------------------------------------

  // Rendered agents: safe slugs, in the order of the slugs.
  ghost predicate AreRendered(agents: seq<AgentFile>) {
    SlugsAreSafe(agents) && Sorted(agents, Slug)
  }

  ghost predicate HashInputFixes(agents: seq<AgentFile>) {
    forall other :: AreRendered(other) && HashInput(other) == HashInput(agents) ==> other == agents
  }

  // A line of the body, neither its first nor its last, that could be the slug of an
  // agent after this one.
  ghost predicate HasInnerSlug(a: AgentFile) {
    var lines := Cut(a.body, '\n');
    exists i :: 1 <= i < |lines| - 1 && Slugs.IsSafeSlug(lines[i]) && !Less(lines[i], a.slug)
  }

  // Two agents merged into one.
  function Merged(a: AgentFile, b: AgentFile): AgentFile {
    AgentFile(a.slug, a.body + (['\n'] + (b.slug + (['\n'] + b.body))))
  }

  lemma MergedLines(a: AgentFile, b: AgentFile)
    requires Slugs.IsSafeSlug(b.slug)
    ensures LinesOf([Merged(a, b)]) == LinesOf([a, b])
  {
    SafeSlugIsOneLine(b.slug);
    CutOfJoined(a.body, b.slug + (['\n'] + b.body), '\n');
    CutOfJoined(b.slug, b.body, '\n');
    LinesOfOne(a);
    LinesOfOne(b);
    LinesOfOne(Merged(a, b));
    assert [a, b] == [a] + [b];
    LinesOfConcat([a], [b]);
    Associates([a.slug], Cut(a.body, '\n'), [b.slug] + Cut(b.body, '\n'));
  }

  lemma MergedIsRendered(agents: seq<AgentFile>)
    requires AreRendered(agents) && |agents| >= 2
    ensures AreRendered([Merged(agents[0], agents[1])] + agents[2..])
  {
    var other := [Merged(agents[0], agents[1])] + agents[2..];
    forall i | 0 <= i < |other| ensures other[i].slug == agents[if i == 0 then 0 else i + 1].slug {
    }
    forall i, j | 0 <= i < j < |other| ensures !Less(Slug(other[j]), Slug(other[i])) {
      assert !Less(Slug(agents[j + 1]), Slug(agents[if i == 0 then 0 else i + 1]));
    }
  }

  /** Merging the first two of several agents does not change the text. */
  lemma MergedHashesAlike(agents: seq<AgentFile>)
    requires AreRendered(agents) && |agents| >= 2
    ensures var other := [Merged(agents[0], agents[1])] + agents[2..];
      AreRendered(other) && HashInput(other) == HashInput(agents) && |other| < |agents|
  {
    var other := [Merged(agents[0], agents[1])] + agents[2..];
    MergedIsRendered(agents);
    MergedLines(agents[0], agents[1]);
    assert agents == [agents[0], agents[1]] + agents[2..];
    LinesOfConcat([agents[0], agents[1]], agents[2..]);
    LinesOfConcat([Merged(agents[0], agents[1])], agents[2..]);
    SameInputExactly(other, agents);
  }

  function SplitAtLine(a: AgentFile, i: nat): seq<AgentFile>
    requires 1 <= i < |Cut(a.body, '\n')| - 1
  {
    var lines := Cut(a.body, '\n');
    [AgentFile(a.slug, Join(lines[..i], '\n')), AgentFile(lines[i], Join(lines[i + 1..], '\n'))]
  }

  lemma SplitBodies(a: AgentFile, i: nat)
    requires 1 <= i < |Cut(a.body, '\n')| - 1
    ensures var lines, other := Cut(a.body, '\n'), SplitAtLine(a, i);
      Cut(other[0].body, '\n') == lines[..i] && Cut(other[1].body, '\n') == lines[i + 1..]
  {
    var lines := Cut(a.body, '\n');
    PiecesHaveNoSeparator(a.body, '\n');
    CutOfPieces(lines[..i], '\n');
    CutOfPieces(lines[i + 1..], '\n');
  }

  lemma LinesOfTwo(x: AgentFile, y: AgentFile)
    ensures LinesOf([x, y]) == ([x.slug] + Cut(x.body, '\n')) + ([y.slug] + Cut(y.body, '\n'))
  {
    LinesOfOne(x);
    LinesOfOne(y);
    assert [x, y] == [x] + [y];
    LinesOfConcat([x], [y]);
  }

  lemma SplitLines(a: AgentFile, i: nat)
    requires 1 <= i < |Cut(a.body, '\n')| - 1
    ensures LinesOf(SplitAtLine(a, i)) == LinesOf([a])
  {
    var lines, other := Cut(a.body, '\n'), SplitAtLine(a, i);
    SplitBodies(a, i);
    LinesOfOne(a);
    LinesOfTwo(other[0], other[1]);
    SplitAnywhere(a.slug, lines, i);
    assert other == [other[0], other[1]];
  }

  lemma SplitAnywhere(first: string, lines: seq<string>, i: nat)
    requires i < |lines|
    ensures ([first] + lines[..i]) + ([lines[i]] + lines[i + 1..]) == [first] + lines
  {
  }

  lemma SplitHashesAlike(a: AgentFile, i: nat)
    requires Slugs.IsSafeSlug(a.slug) && 1 <= i < |Cut(a.body, '\n')| - 1
    requires Slugs.IsSafeSlug(Cut(a.body, '\n')[i]) && !Less(Cut(a.body, '\n')[i], a.slug)
    ensures AreRendered(SplitAtLine(a, i)) && HashInput(SplitAtLine(a, i)) == HashInput([a])
  {
    SplitLines(a, i);
    SameInputExactly(SplitAtLine(a, i), [a]);
  }

  lemma FirstOfOther(a: AgentFile, x: AgentFile, rest: seq<AgentFile>)
    requires AreRendered([a]) && AreRendered([x] + rest) && HashInput([x] + rest) == HashInput([a])
    ensures ([x.slug] + Cut(x.body, '\n')) + LinesOf(rest) == [a.slug] + Cut(a.body, '\n')
    ensures x.slug == a.slug
  {
    SameInputExactly([x] + rest, [a]);
    LinesOfOne(a);
    LinesOfOne(x);
    LinesOfConcat([x], rest);
    assert (([x.slug] + Cut(x.body, '\n')) + LinesOf(rest))[0] == x.slug;
  }

  lemma OneAgentIsFixed(a: AgentFile, other: seq<AgentFile>)
    requires AreRendered([a]) && !HasInnerSlug(a) && AreRendered(other) && HashInput(other) == HashInput([a])
    ensures other == [a]
  {
    if other == [] {
      SameInputExactly(other, [a]);
      LinesOfOne(a);
    } else {
      var x, rest := other[0], other[1..];
      assert other == [x] + rest;
      FirstOfOther(a, x, rest);
      if rest == [] {
        assert ([x.slug] + Cut(x.body, '\n'))[1..] == Cut(x.body, '\n') && ([a.slug] + Cut(a.body, '\n'))[1..] == Cut(a.body, '\n');
        CutIsInjective(x.body, a.body, '\n');
      } else {
        SecondSlugIsInside(a, x, rest);
      }
    }
  }

  lemma SecondSlugIsInside(a: AgentFile, x: AgentFile, rest: seq<AgentFile>)
    requires rest != [] && AreRendered([x] + rest) && x.slug == a.slug
    requires ([x.slug] + Cut(x.body, '\n')) + LinesOf(rest) == [a.slug] + Cut(a.body, '\n')
    ensures HasInnerSlug(a)
  {
    var y, lines, k := rest[0], Cut(a.body, '\n'), |Cut(x.body, '\n')|;
    assert rest == [y] + rest[1..];
    LinesOfConcat([y], rest[1..]);
    LinesOfOne(y);
    var all := [a.slug] + lines;
    assert all[1 + k] == LinesOf(rest)[0] == y.slug && all[1 + k] == lines[k];
    assert y == ([x] + rest)[1];
    assert !Less(Slug(y), Slug(([x] + rest)[0]));
  }

  /** The text hashed over rendered agents fixes them, among all rendered agents,
      exactly when there are none, or there is one and no inner line of its body could
      be the slug of a next one. */
  lemma HashInputFixesExactly(agents: seq<AgentFile>)
    requires AreRendered(agents)
    ensures HashInputFixes(agents) <==> agents == [] || (|agents| == 1 && !HasInnerSlug(agents[0]))
  {
    if agents == [] {
      forall other | AreRendered(other) && HashInput(other) == HashInput(agents) ensures other == agents {
        CutOfHashInput(other);
      }
    } else if |agents| == 1 {
      var a := agents[0];
      assert agents == [a];
      if HasInnerSlug(a) {
        var lines := Cut(a.body, '\n');
        var i :| 1 <= i < |lines| - 1 && Slugs.IsSafeSlug(lines[i]) && !Less(lines[i], a.slug);
        SplitHashesAlike(a, i);
      } else {
        forall other | AreRendered(other) && HashInput(other) == HashInput(agents) ensures other == agents {
          OneAgentIsFixed(a, other);
        }
      }
    } else {
      MergedHashesAlike(agents);
    }
  }
}
