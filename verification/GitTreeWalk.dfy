/** The walk over the HEAD tree of a fetched repository: how many files it holds, how
    deep it goes, and how large its largest blob is. */
module GitTreeWalk {
  // A tree object.  None stands for an object the repository does not have.
  datatype Tree = Tree(entries: seq<TreeEntry>)

  datatype TreeEntry = Subtree(tree: OptTree) | Blob(size: OptSize) | OtherKind

  datatype OptTree = NoTree | ATree(t: Tree)

  datatype OptSize = NoBlob | ASize(n: nat)

  function Max(a: nat, b: nat): nat {
    if a >= b then a else b
  }

  // ------------------------------------------------------------------
  // What is measured
  // ------------------------------------------------------------------

  // Every object below the tree is there.
  predicate IsComplete(es: seq<TreeEntry>)
    decreases es
  {
    es == [] || (IsComplete(es[..|es| - 1]) && EntryIsComplete(es[|es| - 1]))
  }

  predicate EntryIsComplete(e: TreeEntry)
    decreases e
  {
    match e
    case Subtree(NoTree) => false
    case Subtree(ATree(t)) => IsComplete(t.entries)
    case Blob(size) => size.ASize?
    case OtherKind => true
  }

  // The sizes of all blobs, in the order of the walk.
  function BlobSizes(es: seq<TreeEntry>): seq<nat>
    decreases es
  {
    if es == [] then [] else BlobSizes(es[..|es| - 1]) + EntryBlobSizes(es[|es| - 1])
  }

  function EntryBlobSizes(e: TreeEntry): seq<nat>
    decreases e
  {
    match e
    case Subtree(ATree(t)) => BlobSizes(t.entries)
    case Blob(ASize(n)) => [n]
    case _ => []
  }

  // The greatest number of directories below a tree that lie inside one another.
  function Depth(es: seq<TreeEntry>): nat
    decreases es
  {
    if es == [] then 0 else Max(Depth(es[..|es| - 1]), EntryDepth(es[|es| - 1]))
  }

  function EntryDepth(e: TreeEntry): nat
    decreases e
  {
    match e
    case Subtree(ATree(t)) => 1 + Depth(t.entries)
    case _ => 0
  }

  function Largest(sizes: seq<nat>): nat {
    if sizes == [] then 0 else Max(Largest(sizes[..|sizes| - 1]), sizes[|sizes| - 1])
  }

  lemma {:induction false} LargestOfConcat(a: seq<nat>, b: seq<nat>)
    ensures Largest(a + b) == Max(Largest(a), Largest(b))
  {
    if b == [] {
      assert a + b == a;
    } else {
      LargestOfConcat(a, b[..|b| - 1]);
      assert (a + b)[..|a + b| - 1] == a + b[..|b| - 1];
    }
  }

  // ------------------------------------------------------------------
  // The walk
  // ------------------------------------------------------------------

  datatype Counts = Counts(files: nat, depth: nat, largest: nat)

  // The counts after the entries of a tree at some depth have been added.
  function After(c: Counts, depth: nat, es: seq<TreeEntry>): Counts {
    Counts(c.files + |BlobSizes(es)|, Max(c.depth, depth + Depth(es)), Max(c.largest, Largest(BlobSizes(es))))
  }

  lemma OneMoreEntry(es: seq<TreeEntry>, i: nat)
    requires i < |es|
    ensures IsComplete(es[..i + 1]) <==> IsComplete(es[..i]) && EntryIsComplete(es[i])
    ensures BlobSizes(es[..i + 1]) == BlobSizes(es[..i]) + EntryBlobSizes(es[i])
    ensures Depth(es[..i + 1]) == Max(Depth(es[..i]), EntryDepth(es[i]))
    ensures Largest(BlobSizes(es[..i + 1])) == Max(Largest(BlobSizes(es[..i])), Largest(EntryBlobSizes(es[i])))
  {
    assert es[..i + 1][..i] == es[..i];
    LargestOfConcat(BlobSizes(es[..i]), EntryBlobSizes(es[i]));
  }

  lemma AfterSubtree(c: Counts, depth: nat, es: seq<TreeEntry>, i: nat, t: Tree)
    requires i < |es| && es[i] == Subtree(ATree(t))
    ensures After(After(c, depth, es[..i]), depth + 1, t.entries) == After(c, depth, es[..i + 1])
  {
    OneMoreEntry(es, i);
  }

  lemma AfterBlob(c: Counts, depth: nat, es: seq<TreeEntry>, i: nat, n: nat)
    requires i < |es| && es[i] == Blob(ASize(n))
    ensures After(c, depth, es[..i + 1]) ==
              var before := After(c, depth, es[..i]);
              Counts(before.files + 1, before.depth, Max(before.largest, n))
  {
    OneMoreEntry(es, i);
    assert [n][..0] == [];
  }

  lemma AfterOther(c: Counts, depth: nat, es: seq<TreeEntry>, i: nat)
    requires i < |es| && es[i] == OtherKind
    ensures After(c, depth, es[..i + 1]) == After(c, depth, es[..i])
  {
    OneMoreEntry(es, i);
  }

  class TreeWalk {
    var fileCount: nat
    var maxDepth: nat
    var maxBlobSize: nat

    ghost function Counted(): Counts
      reads this
    {
      Counts(fileCount, maxDepth, maxBlobSize)
    }

    constructor ()
      ensures Counted() == Counts(0, 0, 0)
    {
      fileCount, maxDepth, maxBlobSize := 0, 0, 0;
    }
  }

  method AddBlob(walk: TreeWalk, size: nat)
    modifies walk
    ensures walk.Counted() == Counts(old(walk.fileCount) + 1, old(walk.maxDepth), Max(old(walk.maxBlobSize), size))
  {
    walk.fileCount := walk.fileCount + 1;
    if size > walk.maxBlobSize {
      walk.maxBlobSize := size;
    }
  }

  // Adds what is below the tree to the walk, or stops at a missing object.
  method WalkTree(tree: Tree, depth: nat, walk: TreeWalk) returns (ok: bool)
    modifies walk
    ensures ok <==> IsComplete(tree.entries)
    ensures ok ==> walk.Counted() == After(old(walk.Counted()), depth, tree.entries)
    decreases tree
  {
    ghost var before, es := walk.Counted(), tree.entries;
    if depth > walk.maxDepth {
      walk.maxDepth := depth;
    }
    for i := 0 to |tree.entries|
      invariant IsComplete(es[..i])
      invariant walk.Counted() == After(before, depth, es[..i])
    {
      OneMoreEntry(es, i);
      if !EntryIsComplete(es[i]) {
        StopsAt(es, i);
      }
      match tree.entries[i] {
        case Subtree(NoTree) =>
          return false;
        case Subtree(ATree(t)) =>
          AfterSubtree(before, depth, es, i, t);
          ok := WalkTree(t, depth + 1, walk);
          if !ok {
            return;
          }
        case Blob(NoBlob) =>
          return false;
        case Blob(ASize(n)) =>
          AfterBlob(before, depth, es, i, n);
          AddBlob(walk, n);
        case OtherKind =>
          AfterOther(before, depth, es, i);
      }
    }
    assert es[..|es|] == es;
    ok := true;
  }

  lemma {:induction false} StopsAt(es: seq<TreeEntry>, i: nat)
    requires i < |es| && !EntryIsComplete(es[i])
    ensures !IsComplete(es)
    decreases |es|
  {
    if i < |es| - 1 {
      StopsAt(es[..|es| - 1], i);
    }
  }

  // ------------------------------------------------------------------
  // What the measures mean
  // ------------------------------------------------------------------

  /** The largest blob is one of the blobs and none is larger. */
  lemma {:induction false} LargestIsLargest(sizes: seq<nat>)
    ensures forall i :: 0 <= i < |sizes| ==> sizes[i] <= Largest(sizes)
    ensures sizes != [] ==> Largest(sizes) in sizes
  {
    if sizes != [] {
      var front := sizes[..|sizes| - 1];
      LargestIsLargest(front);
      assert sizes == front + [sizes[|sizes| - 1]];
    }
  }

  // Directories below a tree, each inside the one before, by their positions.
  predicate IsNest(es: seq<TreeEntry>, nest: seq<nat>)
    decreases |nest|
  {
    nest == [] ||
    (nest[0] < |es| && es[nest[0]].Subtree? && es[nest[0]].tree.ATree?
     && IsNest(es[nest[0]].tree.t.entries, nest[1..]))
  }

  lemma {:induction false} EntryIsNoDeeper(es: seq<TreeEntry>, i: nat)
    requires i < |es|
    ensures EntryDepth(es[i]) <= Depth(es)
    decreases |es|
  {
    if i < |es| - 1 {
      EntryIsNoDeeper(es[..|es| - 1], i);
    }
  }

  /** No directories lie deeper inside one another than the depth says, */
  lemma {:induction false} NoNestIsDeeper(es: seq<TreeEntry>, nest: seq<nat>)
    requires IsNest(es, nest)
    ensures |nest| <= Depth(es)
    decreases |nest|
  {
    if nest != [] {
      NoNestIsDeeper(es[nest[0]].tree.t.entries, nest[1..]);
      EntryIsNoDeeper(es, nest[0]);
    }
  }

  /** and some lie exactly that deep. */
  lemma {:induction false} SomeNestIsAsDeep(es: seq<TreeEntry>) returns (nest: seq<nat>)
    ensures IsNest(es, nest) && |nest| == Depth(es)
    decreases Depth(es), |es|
  {
    if es == [] || Depth(es) == 0 {
      nest := [];
    } else {
      var n, last := |es| - 1, es[|es| - 1];
      nest := SomeNestIsAsDeep(es[..n]);
      match last {
        case Subtree(ATree(t)) =>
          if EntryDepth(last) >= Depth(es[..n]) {
            var inner := SomeNestIsAsDeep(t.entries);
            nest := [n] + inner;
            assert nest[1..] == inner;
          }
        case _ =>
      }
    }
  }

  /** The walk gets through exactly if every blob and every subtree, at any depth, is
      there. */
  lemma {:induction false} CompleteExactly(es: seq<TreeEntry>)
    ensures IsComplete(es) <==>
              forall i :: 0 <= i < |es| ==>
                match es[i]
                case Subtree(t) => t.ATree? && IsComplete(t.t.entries)
                case Blob(size) => size.ASize?
                case OtherKind => true
    decreases |es|
  {
    if es != [] {
      CompleteExactly(es[..|es| - 1]);
      assert es == es[..|es| - 1] + [es[|es| - 1]];
    }
  }

  // A place below a tree: the position in the tree itself, then in the subtree there,
  // and so on.
  type Place = seq<nat>

  // The size of the blob at a place, if there is one.
  function BlobAt(es: seq<TreeEntry>, p: Place): OptSize
    decreases |p|
  {
    if p == [] || p[0] >= |es| then NoBlob
    else
      match es[p[0]]
      case Subtree(ATree(t)) => BlobAt(t.entries, p[1..])
      case Blob(size) => if |p| == 1 then size else NoBlob
      case _ => NoBlob
  }

  // The places of the blobs, in the order of the walk.
  function BlobPlaces(es: seq<TreeEntry>): seq<Place>
    decreases es
  {
    if es == [] then [] else BlobPlaces(es[..|es| - 1]) + EntryBlobPlaces(es[|es| - 1], |es| - 1)
  }

  function EntryBlobPlaces(e: TreeEntry, i: nat): seq<Place>
    decreases e
  {
    match e
    case Subtree(ATree(t)) => Below(i, BlobPlaces(t.entries))
    case Blob(ASize(_)) => [[i]]
    case _ => []
  }

  function Below(i: nat, places: seq<Place>): (r: seq<Place>)
    ensures |r| == |places|
  {
    seq(|places|, k requires 0 <= k < |places| => [i] + places[k])
  }

  ghost predicate AreBlobPlaces(es: seq<TreeEntry>, places: seq<Place>, sizes: seq<nat>) {
    && |places| == |sizes|
    && (forall k :: 0 <= k < |places| ==> BlobAt(es, places[k]) == ASize(sizes[k]))
    && (forall k, l :: 0 <= k < l < |places| ==> places[k] != places[l])
    && (forall p :: BlobAt(es, p).ASize? ==> p in places)
  }

  // The places at one entry of a tree.
  ghost predicate AreEntryPlaces(es: seq<TreeEntry>, i: nat, places: seq<Place>, sizes: seq<nat>) {
    && |places| == |sizes|
    && (forall k :: 0 <= k < |places| ==>
          places[k] != [] && places[k][0] == i && BlobAt(es, places[k]) == ASize(sizes[k]))
    && (forall k, l :: 0 <= k < l < |places| ==> places[k] != places[l])
    && (forall p :: p != [] && p[0] == i && BlobAt(es, p).ASize? ==> p in places)
  }

  lemma BelowIsEntry(es: seq<TreeEntry>, i: nat, t: Tree)
    requires i < |es| && es[i] == Subtree(ATree(t))
    requires AreBlobPlaces(t.entries, BlobPlaces(t.entries), BlobSizes(t.entries))
    ensures AreEntryPlaces(es, i, Below(i, BlobPlaces(t.entries)), BlobSizes(t.entries))
  {
    var inner := BlobPlaces(t.entries);
    var places := Below(i, inner);
    forall k | 0 <= k < |places| ensures BlobAt(es, places[k]) == ASize(BlobSizes(t.entries)[k]) {
      assert places[k][1..] == inner[k];
    }
    forall k, l | 0 <= k < l < |places| ensures places[k] != places[l] {
      assert places[k][1..] == inner[k] && places[l][1..] == inner[l];
    }
    forall p: Place | p != [] && p[0] == i && BlobAt(es, p).ASize? ensures p in places {
      assert BlobAt(t.entries, p[1..]).ASize?;
      var k :| 0 <= k < |inner| && inner[k] == p[1..];
      assert p == [i] + inner[k] && places[k] == p;
    }
  }

  lemma {:induction false} EntryPlaces(es: seq<TreeEntry>, i: nat)
    requires i < |es|
    ensures AreEntryPlaces(es, i, EntryBlobPlaces(es[i], i), EntryBlobSizes(es[i]))
    decreases es[i], 0
  {
    match es[i]
    case Subtree(ATree(t)) =>
      BlobsAreThere(t.entries);
      BelowIsEntry(es, i, t);
    case Blob(ASize(n)) =>
      forall p: Place | p != [] && p[0] == i && BlobAt(es, p).ASize? ensures p in [[i]] {
        assert p == [i];
      }
    case _ =>
  }

  lemma FrontPlaces(es: seq<TreeEntry>, p: Place)
    requires es != []
    ensures p != [] && p[0] < |es| - 1 ==> BlobAt(es[..|es| - 1], p) == BlobAt(es, p)
    ensures p == [] || p[0] >= |es| - 1 ==> BlobAt(es[..|es| - 1], p) == NoBlob
  {
  }

  /** The blobs counted and measured are those of the tree: their sizes are the sizes at
      all places where a blob lies, each place once. */
  lemma {:induction false} BlobsAreThere(es: seq<TreeEntry>)
    ensures AreBlobPlaces(es, BlobPlaces(es), BlobSizes(es))
    decreases es, 1
  {
    if es != [] {
      var n := |es| - 1;
      var front := es[..n];
      BlobsAreThere(front);
      EntryPlaces(es, n);
      forall p ensures (p != [] && p[0] < n ==> BlobAt(front, p) == BlobAt(es, p))
                    && (p == [] || p[0] >= n ==> BlobAt(front, p) == NoBlob)
      {
        FrontPlaces(es, p);
      }
      PlacesJoin(es, BlobPlaces(front), BlobSizes(front), EntryBlobPlaces(es[n], n), EntryBlobSizes(es[n]));
    }
  }

  lemma PlacesJoin(es: seq<TreeEntry>, a: seq<Place>, x: seq<nat>, b: seq<Place>, y: seq<nat>)
    requires es != []
    requires AreBlobPlaces(es[..|es| - 1], a, x) && AreEntryPlaces(es, |es| - 1, b, y)
    ensures AreBlobPlaces(es, a + b, x + y)
  {
    var n := |es| - 1;
    forall k | 0 <= k < |a| ensures a[k] != [] && a[k][0] < n && BlobAt(es, a[k]) == ASize(x[k]) {
      FrontPlaces(es, a[k]);
    }
    forall p: Place | BlobAt(es, p).ASize? ensures p in a + b {
      FrontPlaces(es, p);
      assert p != [] && p[0] <= n;
    }
  }
}
