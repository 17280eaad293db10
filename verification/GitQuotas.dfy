/** The quota check on a fetched repository: five measures, each against its cap, in a
    fixed order; a repository that breaks one is removed. */
module GitQuotas {
  import opened Wrappers
  import opened GitTreeWalk
  import Permutations
  import opened Texts

  const U64_MAX: nat := 0xFFFF_FFFF_FFFF_FFFF

  // ------------------------------------------------------------------
  // Saturating totals
  // ------------------------------------------------------------------

  function SaturatingAdd(a: nat, b: nat): nat {
    if a + b <= U64_MAX then a + b else U64_MAX
  }

  function Saturated(n: nat): nat {
    if n <= U64_MAX then n else U64_MAX
  }

  function Sum(ns: seq<nat>): nat {
    if ns == [] then 0 else Sum(ns[..|ns| - 1]) + ns[|ns| - 1]
  }

  lemma {:induction false} SumOfConcat(a: seq<nat>, b: seq<nat>)
    ensures Sum(a + b) == Sum(a) + Sum(b)
  {
    if b == [] {
      assert a + b == a;
    } else {
      SumOfConcat(a, b[..|b| - 1]);
      assert (a + b)[..|a + b| - 1] == a + b[..|b| - 1];
    }
  }

  lemma {:induction false} SumWithout(ns: seq<nat>, i: nat)
    requires i < |ns|
    ensures Sum(ns) == Sum(ns[..i] + ns[i + 1..]) + ns[i]
  {
    var n, front := |ns| - 1, ns[..|ns| - 1];
    if i == n {
      assert ns[..i] + ns[i + 1..] == front;
    } else {
      SumWithout(front, i);
      var rest := ns[..i] + ns[i + 1..];
      assert rest[..n - 1] == front[..i] + front[i + 1..] && rest[n - 1] == ns[n];
    }
  }

  lemma {:induction false} SumInAnyOrder(a: seq<nat>, b: seq<nat>)
    requires multiset(a) == multiset(b)
    ensures Sum(a) == Sum(b)
    decreases |a|
  {
    if a == [] {
      Permutations.EmptyHasNoOther(b);
    } else {
      var i := Permutations.TakeOut(a, b);
      SumInAnyOrder(a[..|a| - 1], b[..i] + b[i + 1..]);
      SumWithout(b, i);
    }
  }

  // ------------------------------------------------------------------
  // The size of a directory
  // ------------------------------------------------------------------

  // An entry the walk yields; the size is None if it cannot be read.
  datatype WalkEntry = AFile(size: Option<nat>) | NoFile | Unreadable

  datatype Node = RegularFile(size: Option<nat>) | Directory(children: seq<Node>) | Link

  function SizeOf(e: WalkEntry): nat {
    if e.AFile? && e.size.Some? then e.size.value else 0
  }

  function Sizes(entries: seq<WalkEntry>): seq<nat> {
    seq(|entries|, i requires 0 <= i < |entries| => SizeOf(entries[i]))
  }

  method DirSize(entries: seq<WalkEntry>) returns (total: nat)
    ensures total == Saturated(Sum(Sizes(entries)))
  {
    total := 0;
    for i := 0 to |entries|
      invariant total == Saturated(Sum(Sizes(entries)[..i]))
    {
      assert Sizes(entries)[..i + 1][..i] == Sizes(entries)[..i];
      match entries[i]
      case AFile(size) =>
        if size.Some? {
          total := SaturatingAdd(total, size.value);
        }
      case _ =>
    }
    assert Sizes(entries)[..|entries|] == Sizes(entries);
  }

  // The true size of a tree of files: links are not followed.
  function NodeSize(node: Node): nat {
    match node
    case RegularFile(size) => if size.Some? then size.value else 0
    case Directory(children) => TotalSize(children)
    case Link => 0
  }

  function TotalSize(nodes: seq<Node>): nat {
    if nodes == [] then 0 else TotalSize(nodes[..|nodes| - 1]) + NodeSize(nodes[|nodes| - 1])
  }

  // One order in which a walk may yield the entries below a node, the node first.
  function Walk(node: Node): seq<WalkEntry> {
    match node
    case RegularFile(size) => [AFile(size)]
    case Directory(children) => [NoFile] + WalkAll(children)
    case Link => [NoFile]
  }

  function WalkAll(nodes: seq<Node>): seq<WalkEntry> {
    if nodes == [] then [] else WalkAll(nodes[..|nodes| - 1]) + Walk(nodes[|nodes| - 1])
  }

  lemma SizesOfConcat(a: seq<WalkEntry>, b: seq<WalkEntry>)
    ensures Sum(Sizes(a + b)) == Sum(Sizes(a)) + Sum(Sizes(b))
  {
    assert Sizes(a + b) == Sizes(a) + Sizes(b);
    SumOfConcat(Sizes(a), Sizes(b));
  }

  lemma {:induction false} WalkSize(node: Node)
    ensures Sum(Sizes(Walk(node))) == NodeSize(node)
  {
    match node
    case RegularFile(size) => assert Sizes(Walk(node))[..0] == [];
    case Directory(children) =>
      WalkAllSize(children);
      SizesOfConcat([NoFile], WalkAll(children));
      assert Sizes([NoFile])[..0] == [];
    case Link => assert Sizes(Walk(node))[..0] == [];
  }

  lemma {:induction false} WalkAllSize(nodes: seq<Node>)
    ensures Sum(Sizes(WalkAll(nodes))) == TotalSize(nodes)
  {
    if nodes != [] {
      var front, last := nodes[..|nodes| - 1], nodes[|nodes| - 1];
      WalkAllSize(front);
      WalkSize(last);
      SizesOfConcat(WalkAll(front), Walk(last));
    }
  }

  lemma {:induction false} SizesAsMultiset(a: seq<WalkEntry>, b: seq<WalkEntry>)
    requires multiset(a) == multiset(b)
    ensures multiset(Sizes(a)) == multiset(Sizes(b))
    decreases |a|
  {
    if a == [] {
      Permutations.EmptyHasNoOther(b);
    } else {
      var front := a[..|a| - 1];
      var i := Permutations.TakeOut(a, b);
      SizesAsMultiset(front, b[..i] + b[i + 1..]);
      assert Sizes(a) == Sizes(front) + [SizeOf(a[|a| - 1])];
      assert Sizes(b) == Sizes(b[..i]) + ([SizeOf(b[i])] + Sizes(b[i + 1..]));
      assert Sizes(b[..i] + b[i + 1..]) == Sizes(b[..i]) + Sizes(b[i + 1..]);
    }
  }

  /** In whatever order the walk yields the entries below a directory, the saturating
      total is the true size, or the largest 64-bit number if that is smaller. */
  lemma DirSizeInAnyOrder(node: Node, entries: seq<WalkEntry>)
    requires multiset(entries) == multiset(Walk(node))
    ensures Saturated(Sum(Sizes(entries))) == Saturated(NodeSize(node))
  {
    SizesAsMultiset(entries, Walk(node));
    SumInAnyOrder(Sizes(entries), Sizes(Walk(node)));
    WalkSize(node);
  }

  // ------------------------------------------------------------------
  // The number of objects
  // ------------------------------------------------------------------

  type Byte = b: nat | b < 256

  // An entry of objects/pack; the bytes are None if they cannot be read.
  datatype PackEntry = PackEntry(name: string, bytes: Option<seq<Byte>>)

  // None in the list stands for an entry that cannot be read.
  datatype PackDir = NoPackDir | UnreadablePackDir | Listed(entries: seq<Option<PackEntry>>)

  // A subdirectory of objects, and for each of its entries whether it is a file; None
  // if it cannot be listed.
  datatype SubDir = SubDir(name: string, areFiles: Option<seq<bool>>)

  datatype ObjectsDir = ObjectsDir(pack: PackDir, subDirs: seq<SubDir>)

  predicate IsIndex(name: string) {
    |name| > 4 && name[|name| - 4..] == ".idx"
  }

  const FANOUT_END: nat := 8 + 4 * 256

  function BigEndian(a: Byte, b: Byte, c: Byte, d: Byte): nat {
    ((a * 256 + b) * 256 + c) * 256 + d
  }

  // What an index says its pack holds: the last entry of its fan-out table.
  function LastFanout(bytes: seq<Byte>): nat
    requires |bytes| >= FANOUT_END
  {
    BigEndian(bytes[FANOUT_END - 4], bytes[FANOUT_END - 3], bytes[FANOUT_END - 2], bytes[FANOUT_END - 1])
  }

  predicate IsReadable(e: Option<PackEntry>) {
    e.Some? && (IsIndex(e.value.name) ==> e.value.bytes.Some? && |e.value.bytes.value| >= FANOUT_END)
  }

  function Packed(e: Option<PackEntry>): nat
    requires IsReadable(e)
  {
    if IsIndex(e.value.name) then LastFanout(e.value.bytes.value) else 0
  }

  predicate AllReadable(entries: seq<Option<PackEntry>>) {
    forall i :: 0 <= i < |entries| ==> IsReadable(entries[i])
  }

  function PackedCounts(entries: seq<Option<PackEntry>>): seq<nat>
    requires AllReadable(entries)
  {
    seq(|entries|, i requires 0 <= i < |entries| => Packed(entries[i]))
  }

  function FilesIn(areFiles: seq<bool>): nat {
    if areFiles == [] then 0
    else FilesIn(areFiles[..|areFiles| - 1]) + (if areFiles[|areFiles| - 1] then 1 else 0)
  }

  predicate IsFanDir(name: string) {
    |name| == 2 && IsHexDigit(name[0]) && IsHexDigit(name[1])
  }

  function Loose(d: SubDir): nat {
    if IsFanDir(d.name) && d.areFiles.Some? then FilesIn(d.areFiles.value) else 0
  }

  function LooseCounts(dirs: seq<SubDir>): seq<nat> {
    seq(|dirs|, i requires 0 <= i < |dirs| => Loose(dirs[i]))
  }

  predicate PacksReadable(pack: PackDir) {
    match pack
    case NoPackDir => true
    case UnreadablePackDir => false
    case Listed(entries) => AllReadable(entries)
  }

  // All objects, packed and loose.
  function Objects(o: ObjectsDir): nat
    requires PacksReadable(o.pack)
  {
    (if o.pack.Listed? then Sum(PackedCounts(o.pack.entries)) else 0) + Sum(LooseCounts(o.subDirs))
  }

  method CountPacked(entries: seq<Option<PackEntry>>) returns (r: Option<nat>)
    ensures r.Some? <==> AllReadable(entries)
    ensures r.Some? ==> r.value == Saturated(Sum(PackedCounts(entries)))
  {
    var total := 0;
    for i := 0 to |entries|
      invariant AllReadable(entries[..i])
      invariant total == Saturated(Sum(PackedCounts(entries[..i])))
    {
      if entries[i].None? {
        return None;
      }
      var entry := entries[i].value;
      if IsIndex(entry.name) {
        if entry.bytes.None? || |entry.bytes.value| < FANOUT_END {
          return None;
        }
        var n := LastFanout(entry.bytes.value);
        total := SaturatingAdd(total, n);
      }
      assert PackedCounts(entries[..i + 1])[..i] == PackedCounts(entries[..i]);
    }
    assert entries[..|entries|] == entries;
    r := Some(total);
  }

  method CountFiles(areFiles: seq<bool>) returns (n: nat)
    ensures n == FilesIn(areFiles)
  {
    n := 0;
    for i := 0 to |areFiles|
      invariant n == FilesIn(areFiles[..i])
    {
      assert areFiles[..i + 1][..i] == areFiles[..i];
      if areFiles[i] {
        n := n + 1;
      }
    }
    assert areFiles[..|areFiles|] == areFiles;
  }

  // None if the packs cannot be counted; loose directories that cannot be listed
  // count as empty.
  method ObjectCount(objects: Option<ObjectsDir>) returns (r: Option<nat>)
    ensures objects.None? ==> r == Some(0)
    ensures objects.Some? ==> (r.Some? <==> PacksReadable(objects.value.pack))
    ensures objects.Some? && r.Some? ==> r.value == Saturated(Objects(objects.value))
  {
    if objects.None? {
      return Some(0);
    }
    var total, dirs := 0, objects.value.subDirs;
    match objects.value.pack {
      case NoPackDir =>
      case UnreadablePackDir => return None;
      case Listed(entries) =>
        var packed := CountPacked(entries);
        if packed.None? {
          return None;
        }
        total := packed.value;
    }
    ghost var packedTotal := Objects(objects.value) - Sum(LooseCounts(dirs));
    for i := 0 to |dirs|
      invariant total == Saturated(packedTotal + Sum(LooseCounts(dirs)[..i]))
    {
      assert LooseCounts(dirs)[..i + 1][..i] == LooseCounts(dirs)[..i];
      if IsFanDir(dirs[i].name) && dirs[i].areFiles.Some? {
        var n := CountFiles(dirs[i].areFiles.value);
        total := SaturatingAdd(total, n);
      }
    }
    assert LooseCounts(dirs)[..|dirs|] == LooseCounts(dirs);
    r := Some(total);
  }

  // ------------------------------------------------------------------
  // The check
  // ------------------------------------------------------------------

  datatype RepoQuotas = RepoQuotas(maxGitSizeBytes: nat, maxObjectCount: nat, maxFileCount: nat,
                                   maxPathDepth: nat, maxBlobSizeBytes: nat)

  // Which quota was broken, or which measure could not be taken.
  datatype QuotaError = GitSize(total: nat) | ObjectCountProbe | ObjectCountOver(count: nat) | HeadTreeWalk
                      | FileCount(files: nat) | PathDepth(depth: nat) | BlobSize(size: nat)

  // What the check reads of a clone; the head tree is None if it cannot be reached.
  datatype GitDir = GitDir(entries: seq<WalkEntry>, objects: Option<ObjectsDir>, head: Option<Tree>)

  function GitSizeOf(g: GitDir): nat {
    Saturated(Sum(Sizes(g.entries)))
  }

  predicate CanCount(g: GitDir) {
    g.objects.Some? ==> PacksReadable(g.objects.value.pack)
  }

  function ObjectsOf(g: GitDir): nat
    requires CanCount(g)
  {
    if g.objects.Some? then Saturated(Objects(g.objects.value)) else 0
  }

  predicate CanWalk(g: GitDir) {
    g.head.Some? && IsComplete(g.head.value.entries)
  }

  predicate WithinCaps(g: GitDir, q: RepoQuotas) {
    && GitSizeOf(g) <= q.maxGitSizeBytes
    && CanCount(g) && ObjectsOf(g) <= q.maxObjectCount
    && CanWalk(g)
    && |BlobSizes(g.head.value.entries)| <= q.maxFileCount
    && Depth(g.head.value.entries) <= q.maxPathDepth
    && Largest(BlobSizes(g.head.value.entries)) <= q.maxBlobSizeBytes
  }

  // The error names the first measure, in the order of the check, that is over its cap
  // or cannot be taken.
  predicate IsFirstBreach(g: GitDir, q: RepoQuotas, e: QuotaError) {
    match e
    case GitSize(total) => total == GitSizeOf(g) > q.maxGitSizeBytes
    case ObjectCountProbe => GitSizeOf(g) <= q.maxGitSizeBytes && !CanCount(g)
    case ObjectCountOver(count) =>
      GitSizeOf(g) <= q.maxGitSizeBytes && CanCount(g) && count == ObjectsOf(g) > q.maxObjectCount
    case _ =>
      && GitSizeOf(g) <= q.maxGitSizeBytes
      && CanCount(g) && ObjectsOf(g) <= q.maxObjectCount
      && IsFirstTreeBreach(g, q, e)
  }

  predicate IsFirstTreeBreach(g: GitDir, q: RepoQuotas, e: QuotaError) {
    if !CanWalk(g) then e == HeadTreeWalk
    else
      var es := g.head.value.entries;
      match e
      case FileCount(files) => files == |BlobSizes(es)| > q.maxFileCount
      case PathDepth(depth) => |BlobSizes(es)| <= q.maxFileCount && depth == Depth(es) > q.maxPathDepth
      case BlobSize(size) =>
        && |BlobSizes(es)| <= q.maxFileCount && Depth(es) <= q.maxPathDepth
        && size == Largest(BlobSizes(es)) > q.maxBlobSizeBytes
      case _ => false
  }

  method WalkHeadTree(head: Option<Tree>) returns (r: Option<Counts>)
    ensures r.Some? <==> head.Some? && IsComplete(head.value.entries)
    ensures r.Some? ==> r.value == After(Counts(0, 0, 0), 0, head.value.entries)
  {
    if head.None? {
      return None;
    }
    var walk := new TreeWalk();
    var ok := WalkTree(head.value, 0, walk);
    r := if ok then Some(Counts(walk.fileCount, walk.maxDepth, walk.maxBlobSize)) else None;
  }

  // A fetched repository; gitDir is None if it has no .git directory.
  class Clone {
    const gitDir: Option<GitDir>
    var removed: bool

    constructor (gitDir: Option<GitDir>)
      ensures this.gitDir == gitDir && !removed
    {
      this.gitDir := gitDir;
      removed := false;
    }

    // Best effort: asks for the removal of the whole working copy.
    method Cleanup()
      modifies this
      ensures removed
    {
      removed := true;
    }

    /** Accepts exactly the clones that are no repository or are within all five caps;
        otherwise names the first breach and asks for the removal of the clone. */
    method CheckRepoQuotas(q: RepoQuotas) returns (r: Result<(), QuotaError>)
      modifies this
      ensures r.Success? <==> gitDir.None? || WithinCaps(gitDir.value, q)
      ensures r.Failure? ==> gitDir.Some? && IsFirstBreach(gitDir.value, q, r.error)
      ensures removed == (old(removed) || r.Failure?)
    {
      if gitDir.Some? {
        var total := DirSize(gitDir.value.entries);
        if total > q.maxGitSizeBytes {
          Cleanup();
          return Failure(GitSize(total));
        }
      }
      var objects := ObjectCount(if gitDir.Some? then gitDir.value.objects else None);
      if objects.None? {
        Cleanup();
        return Failure(ObjectCountProbe);
      }
      if objects.value > q.maxObjectCount {
        Cleanup();
        return Failure(ObjectCountOver(objects.value));
      }
      if gitDir.None? {
        return Success(());
      }
      r := CheckHeadTree(gitDir.value.head, q);
    }

    method CheckHeadTree(head: Option<Tree>, q: RepoQuotas) returns (r: Result<(), QuotaError>)
      requires gitDir.Some? && head == gitDir.value.head
      modifies this
      ensures r.Success? <==>
                && CanWalk(gitDir.value)
                && |BlobSizes(head.value.entries)| <= q.maxFileCount
                && Depth(head.value.entries) <= q.maxPathDepth
                && Largest(BlobSizes(head.value.entries)) <= q.maxBlobSizeBytes
      ensures r.Failure? ==> IsFirstTreeBreach(gitDir.value, q, r.error) && r.error != ObjectCountProbe
      ensures removed == (old(removed) || r.Failure?)
    {
      var walk := WalkHeadTree(head);
      if walk.None? {
        Cleanup();
        return Failure(HeadTreeWalk);
      }
      var counts := walk.value;
      if counts.files > q.maxFileCount {
        Cleanup();
        return Failure(FileCount(counts.files));
      }
      if counts.depth > q.maxPathDepth {
        Cleanup();
        return Failure(PathDepth(counts.depth));
      }
      if counts.largest > q.maxBlobSizeBytes {
        Cleanup();
        return Failure(BlobSize(counts.largest));
      }
      r := Success(());
    }
  }

  // ------------------------------------------------------------------
  // Only one answer fits
  // ------------------------------------------------------------------

  /** There is a first breach exactly when some cap is broken or some measure cannot be
      taken, and then it is the only one. */
  lemma FirstBreachIsUnique(g: GitDir, q: RepoQuotas, a: QuotaError, b: QuotaError)
    requires IsFirstBreach(g, q, a) && IsFirstBreach(g, q, b)
    ensures a == b && !WithinCaps(g, q)
  {
  }

  function Encoded32(n: nat): (bytes: seq<Byte>)
    requires n < 0x1_0000_0000
    ensures |bytes| == 4
  {
    [n / 0x100_0000, n / 0x1_0000 % 256, n / 0x100 % 256, n % 256]
  }

  /** An index that ends its fan-out table with a number is counted as that many
      objects. */
  lemma FanoutIsRead(table: seq<Byte>, n: nat, rest: seq<Byte>)
    requires |table| == FANOUT_END - 4 && n < 0x1_0000_0000
    ensures LastFanout(table + (Encoded32(n) + rest)) == n
  {
    var bytes := table + (Encoded32(n) + rest);
    assert bytes[FANOUT_END - 4] == Encoded32(n)[0] && bytes[FANOUT_END - 3] == Encoded32(n)[1];
    assert bytes[FANOUT_END - 2] == Encoded32(n)[2] && bytes[FANOUT_END - 1] == Encoded32(n)[3];
    Digits(n);
  }

  lemma Digits(n: nat)
    requires n < 0x1_0000_0000
    ensures n / 0x100_0000 * 0x100_0000 + n / 0x1_0000 % 256 * 0x1_0000 + n / 0x100 % 256 * 0x100 + n % 256 == n
  {
    var a := n / 0x100;
    var b := n / 0x1_0000;
    assert b == a / 256 && n / 0x100_0000 == b / 256;
    assert n == a * 256 + n % 256 && a == b * 256 + a % 256 && b == b / 256 * 256 + b % 256;
  }

  // ------------------------------------------------------------------
  // What is counted as an object
  // ------------------------------------------------------------------

  /** A pack index is a name that ends in .idx after some other character. */
  lemma IndexesAreThose(name: string)
    ensures IsIndex(name) <==> exists stem: string :: stem != "" && name == stem + ".idx"
  {
    if IsIndex(name) {
      assert name == name[..|name| - 4] + ".idx";
    }
    if stem: string :| stem != "" && name == stem + ".idx" {
      assert name[|name| - 4..] == ".idx";
    }
  }

  /** What an entry of the pack directory counts, and when it stops the count. */
  lemma PackedExactly(e: Option<PackEntry>)
    ensures IsReadable(e) <==>
              e.Some? && (IsIndex(e.value.name) ==> e.value.bytes.Some? && |e.value.bytes.value| >= 1032)
    ensures IsReadable(e) && !IsIndex(e.value.name) ==> Packed(e) == 0
    ensures IsReadable(e) && IsIndex(e.value.name) ==>
              var b := e.value.bytes.value;
              Packed(e) == 0x100_0000 * (b[1028] as nat) + 0x1_0000 * (b[1029] as nat) + 0x100 * (b[1030] as nat)
                           + b[1031] as nat
  {
  }

  lemma {:induction false} FilesAreCounted(areFiles: seq<bool>)
    ensures FilesIn(areFiles) == multiset(areFiles)[true]
  {
    if areFiles != [] {
      FilesAreCounted(areFiles[..|areFiles| - 1]);
      assert areFiles == areFiles[..|areFiles| - 1] + [areFiles[|areFiles| - 1]];
    }
  }

  /** A directory counts as many loose objects as it has files, if its name is two
      hexadecimal digits and it can be listed, and none otherwise. */
  lemma LooseExactly(d: SubDir)
    ensures Loose(d) ==
              if |d.name| == 2 && d.name[0] in "0123456789abcdefABCDEF" && d.name[1] in "0123456789abcdefABCDEF"
                 && d.areFiles.Some?
              then multiset(d.areFiles.value)[true] else 0
  {
    if d.areFiles.Some? {
      FilesAreCounted(d.areFiles.value);
    }
    if |d.name| == 2 {
      HexDigitsAreThose(d.name[0]);
      HexDigitsAreThose(d.name[1]);
    }
  }

  /** Totals stop at the largest 64-bit number. */
  lemma SaturatedExactly(a: nat, b: nat)
    ensures Saturated(a) == if a < 0x1_0000_0000_0000_0000 then a else 0xFFFF_FFFF_FFFF_FFFF
    ensures SaturatingAdd(Saturated(a), b) == Saturated(a + b)
  {
  }
}
