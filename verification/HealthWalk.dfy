/** The health check from the directory up: the recursive walk that finds the files of a
    plugin, and what its map of hashes says about the tree. */
module HealthWalk {
  import opened Wrappers
  import opened Sorting
  import opened OrderedMaps
  import opened Health
  import opened Segments
  import opened Texts

  type Bytes = seq<bv8>

  // A file that cannot be read has no content, a directory that cannot be listed no
  // listing; an entry may fail to be read as well.
  datatype Node = RegularFile(content: Option<Bytes>) | Directory(listing: Listing) | Special

  datatype Listing = Unlisted | Listed(entries: seq<Entry>)

  datatype Entry = Broken | Entry(name: string, node: Node)

  // A path relative to the Hermes home, component by component.
  type Path = seq<string>

  function Joined(p: Path): string {
    if p == [] then "" else Join(p, '/')
  }

  function Slashes(s: string): string {
    seq(|s|, i requires 0 <= i < |s| => if s[i] == '\\' then '/' else s[i])
  }

  // The target a path is reported under.
  function Rel(p: Path): string {
    Slashes(Joined(p))
  }

  function HashOf(content: Option<Bytes>, hash: Bytes -> string): Option<string> {
    match content
    case None => None
    case Some(bytes) => Some(hash(bytes))
  }

  // ------------------------------------------------------------------
  // The walk
  // ------------------------------------------------------------------

  predicate IsReadable(es: seq<Entry>)
    decreases es
  {
    es == [] || (IsReadable(es[..|es| - 1]) && EntryIsReadable(es[|es| - 1]))
  }

  predicate EntryIsReadable(e: Entry)
    decreases e
  {
    match e
    case Broken => false
    case Entry(_, Directory(Unlisted)) => false
    case Entry(_, Directory(Listed(es))) => IsReadable(es)
    case Entry(_, _) => true
  }

  // The map after the files of a listing have been put into it.
  function AfterEntries(m: Observed, es: seq<Entry>, dir: Path, hash: Bytes -> string): Observed
    decreases es
  {
    if es == [] then m else AfterEntry(AfterEntries(m, es[..|es| - 1], dir, hash), es[|es| - 1], dir, hash)
  }

  function AfterEntry(m: Observed, e: Entry, dir: Path, hash: Bytes -> string): Observed
    decreases e
  {
    match e
    case Entry(name, RegularFile(content)) => Put(m, Rel(dir + [name]), HashOf(content, hash))
    case Entry(name, Directory(Listed(es))) => AfterEntries(m, es, dir + [name], hash)
    case _ => m
  }

  class FileMap {
    var files: Observed

    constructor ()
      ensures files == []
    {
      files := [];
    }

    method Insert(k: string, v: Option<string>)
      modifies this
      ensures files == Put(old(files), k, v)
    {
      files := Put(files, k, v);
    }
  }

  method CollectFiles(listing: Listing, dir: Path, out: FileMap, hash: Bytes -> string) returns (ok: bool)
    modifies out
    ensures ok <==> listing.Listed? && IsReadable(listing.entries)
    ensures ok ==> out.files == AfterEntries(old(out.files), listing.entries, dir, hash)
    decreases listing
  {
    if listing.Unlisted? {
      return false;
    }
    ghost var before, es := out.files, listing.entries;
    for i := 0 to |listing.entries|
      invariant IsReadable(es[..i])
      invariant out.files == AfterEntries(before, es[..i], dir, hash)
    {
      assert es[..i + 1][..i] == es[..i];
      if !EntryIsReadable(es[i]) {
        StopsAt(es, i);
      }
      match listing.entries[i] {
        case Broken => return false;
        case Entry(name, Directory(inner)) =>
          ok := CollectFiles(inner, dir + [name], out, hash);
          if !ok {
            return;
          }
        case Entry(name, RegularFile(content)) =>
          out.Insert(Rel(dir + [name]), HashOf(content, hash));
        case Entry(_, Special) =>
      }
    }
    assert es[..|es|] == es;
    ok := true;
  }

  lemma {:induction false} StopsAt(es: seq<Entry>, i: nat)
    requires i < |es| && !EntryIsReadable(es[i])
    ensures !IsReadable(es)
    decreases |es|
  {
    if i < |es| - 1 {
      StopsAt(es[..|es| - 1], i);
    }
  }

  /** The walk gets through exactly if every entry can be read and every directory, at any
      depth, can be listed. */
  lemma {:induction false} ReadableExactly(es: seq<Entry>)
    ensures IsReadable(es) <==>
              forall i :: 0 <= i < |es| ==>
                && es[i].Entry?
                && (es[i].node.Directory? ==> es[i].node.listing.Listed? && IsReadable(es[i].node.listing.entries))
    decreases |es|
  {
    if es != [] {
      ReadableExactly(es[..|es| - 1]);
      assert es == es[..|es| - 1] + [es[|es| - 1]];
    }
  }

  // ------------------------------------------------------------------
  // The whole check
  // ------------------------------------------------------------------

  // What the walk finds below the plugin's directory; nothing if there is none.
  function Found(plugin: Option<Listing>, id: string, hash: Bytes -> string): Observed {
    match plugin
    case Some(Listed(es)) => AfterEntries([], es, ["plugins", id], hash)
    case _ => []
  }

  method CheckHealth(plugin: Option<Listing>, id: string, baseline: Baseline, hash: Bytes -> string)
    returns (r: Option<HealthReport>)
    requires IsOrdered(baseline)
    ensures r.None? <==> plugin.Some? && !(plugin.value.Listed? && IsReadable(plugin.value.entries))
    ensures r.Some? ==> IsReport(r.value.artifacts, Found(plugin, id, hash), baseline)
    ensures r.Some? ==>
              forall i :: 0 <= i < |r.value.artifacts| ==>
                IsRight(r.value.artifacts[i], Found(plugin, id, hash), baseline)
    ensures r.Some? ==> (r.value.ok <==> forall target :: Agrees(Found(plugin, id, hash), baseline, target))
  {
    var out := new FileMap();
    if plugin.Some? {
      var ok := CollectFiles(plugin.value, ["plugins", id], out, hash);
      if !ok {
        return None;
      }
      AfterEntriesIsOrdered([], plugin.value.entries, ["plugins", id], hash);
    }
    var report := Report(out.files, baseline);
    OkMeansEqual(report.artifacts, out.files, baseline);
    r := Some(report);
  }

  lemma {:induction false} AfterEntriesIsOrdered(m: Observed, es: seq<Entry>, dir: Path, hash: Bytes -> string)
    requires IsOrdered(m)
    ensures IsOrdered(AfterEntries(m, es, dir, hash))
    decreases es
  {
    if es != [] {
      AfterEntriesIsOrdered(m, es[..|es| - 1], dir, hash);
      AfterEntryIsOrdered(AfterEntries(m, es[..|es| - 1], dir, hash), es[|es| - 1], dir, hash);
    }
  }

  lemma {:induction false} AfterEntryIsOrdered(m: Observed, e: Entry, dir: Path, hash: Bytes -> string)
    requires IsOrdered(m)
    ensures IsOrdered(AfterEntry(m, e, dir, hash))
    decreases e
  {
    match e
    case Entry(name, RegularFile(content)) => PutKeepsOrder(m, Rel(dir + [name]), HashOf(content, hash));
    case Entry(name, Directory(Listed(es))) => AfterEntriesIsOrdered(m, es, dir + [name], hash);
    case _ =>
  }

  // ------------------------------------------------------------------
  // What the map says about the tree
  // ------------------------------------------------------------------

  // What a file name can be on Unix.
  ghost predicate IsUnixName(name: string) {
    name != "" && '/' !in name
  }

  ghost predicate IsUnixPath(p: Path) {
    forall i :: 0 <= i < |p| ==> IsUnixName(p[i])
  }

  ghost predicate HasUnixNames(es: seq<Entry>)
    decreases es
  {
    es == [] || (HasUnixNames(es[..|es| - 1]) && EntryHasUnixNames(es[|es| - 1]))
  }

  ghost predicate EntryHasUnixNames(e: Entry)
    decreases e
  {
    match e
    case Broken => true
    case Entry(name, Directory(Listed(es))) => IsUnixName(name) && HasUnixNames(es)
    case Entry(name, _) => IsUnixName(name)
  }

  // The content of the regular file at a path below a listing, if there is one.
  function FileAt(es: seq<Entry>, p: Path): Option<Option<Bytes>>
    decreases es
  {
    if es == [] then None
    else
      match EntryFileAt(es[|es| - 1], p)
      case Some(content) => Some(content)
      case None => FileAt(es[..|es| - 1], p)
  }

  function EntryFileAt(e: Entry, p: Path): Option<Option<Bytes>>
    decreases e
  {
    match e
    case Entry(name, RegularFile(content)) => if p == [name] then Some(content) else None
    case Entry(name, Directory(Listed(es))) => if |p| > 1 && p[0] == name then FileAt(es, p[1..]) else None
    case _ => None
  }

  // No file, an unreadable one, or one with some bytes.
  function Hashed(content: Option<Option<Bytes>>, hash: Bytes -> string): Option<Option<string>> {
    match content
    case None => None
    case Some(None) => Some(None)
    case Some(Some(bytes)) => Some(Some(hash(bytes)))
  }

  // --- paths and their names -------------------------------------------

  lemma {:induction false} SlashesOfName(name: string)
    requires '/' !in name
    ensures Cut(Slashes(name), '/') == Cut(name, '\\')
  {
    if name == "" {
      assert Slashes(name) == "";
    } else {
      assert name == [name[0]] + name[1..];
      SlashesOfName(name[1..]);
      assert Slashes(name)[1..] == Slashes(name[1..]);
    }
  }

  lemma {:induction false} SlashesOfPath(p: Path)
    requires p != [] && IsUnixPath(p)
    ensures Cut(Rel(p), '/') == CutAll(p, '\\')
  {
    assert IsUnixName(p[0]);
    SlashesOfName(p[0]);
    if |p| == 1 {
      assert CutAll(p[1..], '\\') == [];
      assert Cut(p[0], '\\') + [] == Cut(p[0], '\\');
    } else {
      assert IsUnixPath(p[1..]);
      SlashesOfPath(p[1..]);
      assert Slashes(p[0] + (['/'] + Joined(p[1..]))) == Slashes(p[0]) + (['/'] + Slashes(Joined(p[1..])));
      CutOfJoined(Slashes(p[0]), Slashes(Joined(p[1..])), '/');
    }
  }

  /** Two paths are reported under one target exactly when cutting their names at
      backslashes gives the same pieces. */
  lemma TargetsCollideExactly(p: Path, q: Path)
    requires IsUnixPath(p) && IsUnixPath(q) && p != [] && q != []
    ensures Rel(p) == Rel(q) <==> CutAll(p, '\\') == CutAll(q, '\\')
  {
    SlashesOfPath(p);
    SlashesOfPath(q);
    if CutAll(p, '\\') == CutAll(q, '\\') {
      CutIsInjective(Rel(p), Rel(q), '/');
    }
  }

  lemma {:induction false} NoBackslashNoCut(p: Path)
    requires forall i :: 0 <= i < |p| ==> '\\' !in p[i]
    ensures CutAll(p, '\\') == p
  {
    if p != [] {
      CutWithoutSeparator(p[0], '\\');
      NoBackslashNoCut(p[1..]);
      assert p == [p[0]] + p[1..];
    }
  }

  /** The target of a path without backslashes is the path with slashes between its
      names. */
  lemma TargetHasTheNames(p: Path)
    requires IsUnixPath(p) && p != [] && forall i :: 0 <= i < |p| ==> '\\' !in p[i]
    ensures Cut(Rel(p), '/') == p && Rel(p) == Join(p, '/')
  {
    SlashesOfPath(p);
    NoBackslashNoCut(p);
    JoinOfCut(Rel(p), '/');
  }

  /** So paths without backslashes never share a target. */
  lemma RelIsInjective(p: Path, q: Path)
    requires IsUnixPath(p) && IsUnixPath(q) && p != [] && q != []
    requires forall i :: 0 <= i < |p| ==> '\\' !in p[i]
    requires forall i :: 0 <= i < |q| ==> '\\' !in q[i]
    ensures Rel(p) == Rel(q) <==> p == q
  {
    TargetsCollideExactly(p, q);
    NoBackslashNoCut(p);
    NoBackslashNoCut(q);
  }

  // --- the tree, path by path ------------------------------------------

  predicate IsBelow(dir: Path, q: Path) {
    |q| > |dir| && q[..|dir|] == dir
  }

  // What the map holds for a path, given what a listing has for it.
  function Updated(m: Observed, q: Path, content: Option<Option<Bytes>>, hash: Bytes -> string): Option<Option<string>> {
    if content.Some? then Hashed(content, hash) else Get(m, Rel(q))
  }

  // No file of the listing shares a target with the path but the one at that path.
  ghost predicate IsAlone(es: seq<Entry>, dir: Path, q: Path) {
    forall p :: FileAt(es, p).Some? && Rel(dir + p) == Rel(q) ==> dir + p == q
  }

  ghost predicate EntryIsAlone(e: Entry, dir: Path, q: Path) {
    forall p :: EntryFileAt(e, p).Some? && Rel(dir + p) == Rel(q) ==> dir + p == q
  }

  lemma AloneInParts(es: seq<Entry>, dir: Path, q: Path)
    requires es != [] && IsAlone(es, dir, q)
    ensures IsAlone(es[..|es| - 1], dir, q) && EntryIsAlone(es[|es| - 1], dir, q)
  {
    forall p | FileAt(es[..|es| - 1], p).Some? && Rel(dir + p) == Rel(q) ensures dir + p == q {
      assert FileAt(es, p).Some?;
    }
    forall p | EntryFileAt(es[|es| - 1], p).Some? && Rel(dir + p) == Rel(q) ensures dir + p == q {
      assert FileAt(es, p).Some?;
    }
  }

  lemma AloneInside(name: string, es: seq<Entry>, dir: Path, q: Path)
    requires EntryIsAlone(Entry(name, Directory(Listed(es))), dir, q)
    ensures IsAlone(es, dir + [name], q)
  {
    forall p | FileAt(es, p).Some? && Rel(dir + [name] + p) == Rel(q) ensures dir + [name] + p == q {
      FilesHavePaths(es, p);
      assert ([name] + p)[1..] == p && dir + ([name] + p) == dir + [name] + p;
      assert EntryFileAt(Entry(name, Directory(Listed(es))), [name] + p).Some?;
    }
  }

  lemma {:induction false} FilesHavePaths(es: seq<Entry>, p: Path)
    requires FileAt(es, p).Some?
    ensures p != []
    decreases |es|
  {
    if EntryFileAt(es[|es| - 1], p).None? {
      FilesHavePaths(es[..|es| - 1], p);
    }
  }

  lemma {:induction false} EntriesSeen(m: Observed, es: seq<Entry>, dir: Path, hash: Bytes -> string, q: Path)
    requires IsOrdered(m) && IsAlone(es, dir, q)
    ensures Get(AfterEntries(m, es, dir, hash), Rel(q))
         == Updated(m, q, if IsBelow(dir, q) then FileAt(es, q[|dir|..]) else None, hash)
    decreases es
  {
    if es != [] {
      var front, last := es[..|es| - 1], es[|es| - 1];
      AloneInParts(es, dir, q);
      EntriesSeen(m, front, dir, hash, q);
      AfterEntriesIsOrdered(m, front, dir, hash);
      EntrySeen(AfterEntries(m, front, dir, hash), last, dir, hash, q);
    }
  }

  lemma {:induction false} EntrySeen(m: Observed, e: Entry, dir: Path, hash: Bytes -> string, q: Path)
    requires IsOrdered(m) && EntryIsAlone(e, dir, q)
    ensures Get(AfterEntry(m, e, dir, hash), Rel(q))
         == Updated(m, q, if IsBelow(dir, q) then EntryFileAt(e, q[|dir|..]) else None, hash)
    decreases e
  {
    match e
    case Entry(name, RegularFile(content)) =>
      assert EntryFileAt(e, [name]).Some?;
      GetAfterPut(m, Rel(dir + [name]), HashOf(content, hash), Rel(q));
      FileOrNot(dir, name, q);
    case Entry(name, Directory(Listed(es))) =>
      AloneInside(name, es, dir, q);
      EntriesSeen(m, es, dir + [name], hash, q);
      BelowOneMore(dir, name, q);
    case _ =>
  }

  lemma FileOrNot(dir: Path, name: string, q: Path)
    ensures q == dir + [name] <==> IsBelow(dir, q) && q[|dir|..] == [name]
  {
    if IsBelow(dir, q) && q[|dir|..] == [name] {
      assert q == q[..|dir|] + q[|dir|..];
    }
  }

  lemma BelowOneMore(dir: Path, name: string, q: Path)
    ensures IsBelow(dir + [name], q) <==> IsBelow(dir, q) && |q[|dir|..]| > 1 && q[|dir|..][0] == name
    ensures IsBelow(dir + [name], q) ==> q[|dir + [name]|..] == q[|dir|..][1..]
  {
    if |q| > |dir| + 1 {
      assert q[..|dir| + 1] == q[..|dir|] + [q[|dir|]];
      if q[..|dir| + 1] == dir + [name] {
        assert q[..|dir| + 1][..|dir|] == dir && q[..|dir| + 1][|dir|] == name;
      }
    }
  }

  // Every key is that of a file.
  lemma {:induction false} KeyIsAFile(m: Observed, es: seq<Entry>, dir: Path, hash: Bytes -> string, k: string)
    returns (p: Path)
    requires IsOrdered(m)
    requires Get(AfterEntries(m, es, dir, hash), k).Some? && Get(m, k).None?
    ensures FileAt(es, p).Some? && k == Rel(dir + p)
    decreases es
  {
    var front, last := es[..|es| - 1], es[|es| - 1];
    if Get(AfterEntries(m, front, dir, hash), k).Some? {
      p := KeyIsAFile(m, front, dir, hash, k);
    } else {
      AfterEntriesIsOrdered(m, front, dir, hash);
      p := KeyIsTheEntry(AfterEntries(m, front, dir, hash), last, dir, hash, k);
    }
  }

  lemma {:induction false} KeyIsTheEntry(m: Observed, e: Entry, dir: Path, hash: Bytes -> string, k: string)
    returns (p: Path)
    requires IsOrdered(m)
    requires Get(AfterEntry(m, e, dir, hash), k).Some? && Get(m, k).None?
    ensures EntryFileAt(e, p).Some? && k == Rel(dir + p)
    decreases e
  {
    match e
    case Entry(name, RegularFile(content)) =>
      GetAfterPut(m, Rel(dir + [name]), HashOf(content, hash), k);
      p := [name];
    case Entry(name, Directory(Listed(es))) =>
      var inner := KeyIsAFile(m, es, dir + [name], hash, k);
      FilesHavePaths(es, inner);
      p := [name] + inner;
      assert dir + p == (dir + [name]) + inner && p[1..] == inner;
  }

  /** The map the check works on is the tree: wherever no other file shares its target,
      a path has in the map just what the tree has there, a regular file its hash, an
      unreadable one no hash; and every key is the target of a file. */
  lemma FoundIsTheTree(es: seq<Entry>, id: string, hash: Bytes -> string)
    ensures var found := Found(Some(Listed(es)), id, hash);
      && (forall p :: IsAlone(es, ["plugins", id], ["plugins", id] + p) ==>
            Get(found, Rel(["plugins", id] + p)) == Hashed(FileAt(es, p), hash))
      && (forall k :: Get(found, k).Some? ==>
            exists p :: FileAt(es, p).Some? && k == Rel(["plugins", id] + p))
  {
    var dir := ["plugins", id];
    var found := Found(Some(Listed(es)), id, hash);
    forall p | IsAlone(es, dir, dir + p) ensures Get(found, Rel(dir + p)) == Hashed(FileAt(es, p), hash) {
      EntriesSeen([], es, dir, hash, dir + p);
      assert (dir + p)[..2] == dir && (dir + p)[2..] == p;
      NoFileAtNothing(es);
    }
    forall k | Get(found, k).Some? ensures exists p :: FileAt(es, p).Some? && k == Rel(dir + p) {
      var p := KeyIsAFile([], es, dir, hash, k);
    }
  }

  lemma NoFileAtNothing(es: seq<Entry>)
    ensures FileAt(es, []).None?
  {
    if FileAt(es, []).Some? {
      FilesHavePaths(es, []);
    }
  }

  // --- lost files -------------------------------------------------------

  // No two files of the tree share a target.
  ghost predicate LosesNoFile(es: seq<Entry>, id: string) {
    forall p, q :: FileAt(es, p).Some? && FileAt(es, q).Some? && Rel(["plugins", id] + p) == Rel(["plugins", id] + q) ==>
      p == q
  }

  lemma {:induction false} FilesHaveUnixPaths(es: seq<Entry>, p: Path)
    requires HasUnixNames(es) && FileAt(es, p).Some?
    ensures p != [] && IsUnixPath(p)
    decreases es
  {
    if EntryFileAt(es[|es| - 1], p).Some? {
      EntryFilesHaveUnixPaths(es[|es| - 1], p);
    } else {
      FilesHaveUnixPaths(es[..|es| - 1], p);
    }
  }

  lemma {:induction false} EntryFilesHaveUnixPaths(e: Entry, p: Path)
    requires EntryHasUnixNames(e) && EntryFileAt(e, p).Some?
    ensures p != [] && IsUnixPath(p)
    decreases e
  {
    match e
    case Entry(name, Directory(Listed(es))) =>
      FilesHaveUnixPaths(es, p[1..]);
      forall i | 0 <= i < |p| ensures IsUnixName(p[i]) {
        assert i > 0 ==> p[i] == p[1..][i - 1];
      }
    case _ =>
  }

  lemma {:induction false} CutAllOfConcat(p: Path, q: Path)
    ensures CutAll(p + q, '\\') == CutAll(p, '\\') + CutAll(q, '\\')
  {
    if p == [] {
      assert p + q == q;
    } else {
      CutAllOfConcat(p[1..], q);
      assert (p + q)[1..] == p[1..] + q;
      Associates(Cut(p[0], '\\'), CutAll(p[1..], '\\'), CutAll(q, '\\'));
    }
  }

  lemma BelowCollideExactly(dir: Path, p: Path, q: Path)
    requires IsUnixPath(dir) && IsUnixPath(p) && IsUnixPath(q) && dir != []
    ensures Rel(dir + p) == Rel(dir + q) <==> CutAll(p, '\\') == CutAll(q, '\\')
  {
    TargetsCollideExactly(dir + p, dir + q);
    CutAllOfConcat(dir, p);
    CutAllOfConcat(dir, q);
    var d := CutAll(dir, '\\');
    if d + CutAll(p, '\\') == d + CutAll(q, '\\') {
      assert (d + CutAll(p, '\\'))[|d|..] == CutAll(p, '\\') && (d + CutAll(q, '\\'))[|d|..] == CutAll(q, '\\');
    }
  }

  // No two files have paths with the same pieces between slashes and backslashes.
  ghost predicate PiecesDiffer(es: seq<Entry>) {
    forall p, q :: FileAt(es, p).Some? && FileAt(es, q).Some? && CutAll(p, '\\') == CutAll(q, '\\') ==> p == q
  }

  lemma FilesCollideExactly(es: seq<Entry>, id: string, p: Path, q: Path)
    requires HasUnixNames(es) && IsUnixName(id) && FileAt(es, p).Some? && FileAt(es, q).Some?
    ensures Rel(["plugins", id] + p) == Rel(["plugins", id] + q) <==> CutAll(p, '\\') == CutAll(q, '\\')
  {
    FilesHaveUnixPaths(es, p);
    FilesHaveUnixPaths(es, q);
    assert IsUnixName("plugins");
    BelowCollideExactly(["plugins", id], p, q);
  }

  /** A tree of Unix names loses no file exactly when no two of its files have paths
      with the same pieces between slashes and backslashes. */
  lemma NoFileIsLostExactly(es: seq<Entry>, id: string)
    requires HasUnixNames(es) && IsUnixName(id)
    ensures LosesNoFile(es, id) <==> PiecesDiffer(es)
  {
    forall p, q | FileAt(es, p).Some? && FileAt(es, q).Some?
      ensures Rel(["plugins", id] + p) == Rel(["plugins", id] + q) <==> CutAll(p, '\\') == CutAll(q, '\\')
    {
      FilesCollideExactly(es, id, p, q);
    }
  }

  /** Then every file is in the map under its own target with its own hash. */
  lemma EveryFileIsFound(es: seq<Entry>, id: string, hash: Bytes -> string, p: Path)
    requires LosesNoFile(es, id) && FileAt(es, p).Some?
    ensures Get(Found(Some(Listed(es)), id, hash), Rel(["plugins", id] + p)) == Hashed(FileAt(es, p), hash)
  {
    FoundIsTheTree(es, id, hash);
    assert IsAlone(es, ["plugins", id], ["plugins", id] + p);
  }
}
