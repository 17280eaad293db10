/** The health check of a deployed plugin: the files found on disk against the hashes
    recorded when it was deployed. */
module Health {
  import opened Wrappers
  import opened Sorting
  import opened OrderedMaps
  import Permutations

  datatype ArtifactHealthStatus = Current | Modified | Foreign | Missing | Error

  datatype ArtifactHealth = ArtifactHealth(target: string, expectedSha256: Option<string>,
                                           observedSha256: Option<string>, status: ArtifactHealthStatus)

  datatype HealthReport = HealthReport(artifacts: seq<ArtifactHealth>, ok: bool)

  // A file that was found but could not be read has no hash.
  type Observed = seq<Pair<Option<string>>>

  type Baseline = seq<Pair<string>>

  // ------------------------------------------------------------------
  // What the report says of one target
  // ------------------------------------------------------------------

  predicate IsKnown(observed: Observed, baseline: Baseline, target: string) {
    Get(observed, target).Some? || Get(baseline, target).Some?
  }

  function HashSeen(observed: Observed, target: string): Option<string> {
    match Get(observed, target)
    case None => None
    case Some(hash) => hash
  }

  // The target was found and could be read.
  predicate WasRead(observed: Observed, target: string) {
    Get(observed, target).Some? && Get(observed, target).value.Some?
  }

  predicate WasRecorded(baseline: Baseline, target: string) {
    Get(baseline, target).Some?
  }

  predicate HashesMatch(observed: Observed, baseline: Baseline, target: string) {
    WasRead(observed, target) && WasRecorded(baseline, target)
    && Get(observed, target).value.value == Get(baseline, target).value
  }

  // What the report says of a target, by what was found and what was recorded.
  predicate IsRight(a: ArtifactHealth, observed: Observed, baseline: Baseline) {
    var read, recorded := WasRead(observed, a.target), WasRecorded(baseline, a.target);
    && a.expectedSha256 == Get(baseline, a.target)
    && a.observedSha256 == (if read then Get(observed, a.target).value else None)
    && (a.status == Current <==> HashesMatch(observed, baseline, a.target))
    && (a.status == Modified <==> recorded && read && !HashesMatch(observed, baseline, a.target))
    && (a.status == Foreign <==> read && !recorded)
    && (a.status == Missing <==> recorded && !read)
    && (a.status == Error <==> !recorded && Get(observed, a.target) == Some(None))
  }

  // The status is fixed by the two hashes.
  function StatusOf(expected: Option<string>, seen: Option<string>): ArtifactHealthStatus {
    match (expected, seen)
    case (Some(e), Some(o)) => if e == o then Current else Modified
    case (Some(_), None) => Missing
    case (None, Some(_)) => Foreign
    case (None, None) => Error
  }

  function Judged(observed: Observed, baseline: Baseline, target: string): ArtifactHealth {
    var expected, seen := Get(baseline, target), HashSeen(observed, target);
    ArtifactHealth(target, expected, seen, StatusOf(expected, seen))
  }

  function TargetOf(a: ArtifactHealth): string {
    a.target
  }

  // Every known target once, in strictly increasing order, judged by its hashes.
  ghost predicate IsReport(artifacts: seq<ArtifactHealth>, observed: Observed, baseline: Baseline) {
    && StrictlySorted(artifacts, TargetOf)
    && (forall i :: 0 <= i < |artifacts| ==>
          && IsKnown(observed, baseline, artifacts[i].target)
          && artifacts[i] == Judged(observed, baseline, artifacts[i].target))
    && (forall target :: IsKnown(observed, baseline, target) ==> Judged(observed, baseline, target) in artifacts)
  }

  // ------------------------------------------------------------------
  // Putting it together
  // ------------------------------------------------------------------

  function ForObserved(observed: Observed, baseline: Baseline): seq<ArtifactHealth> {
    seq(|observed|, i requires 0 <= i < |observed| => Judged(observed, baseline, observed[i].key))
  }

  // The recorded files that were not found, among the first n.
  function NotFound(observed: Observed, baseline: Baseline, n: nat): seq<ArtifactHealth>
    requires n <= |baseline|
  {
    if n == 0 then []
    else
      var before := NotFound(observed, baseline, n - 1);
      if Get(observed, baseline[n - 1].key).None? then before + [Judged(observed, baseline, baseline[n - 1].key)] else before
  }

  method Diff(observed: Observed, baseline: Baseline) returns (artifacts: seq<ArtifactHealth>)
    requires IsOrdered(observed) && IsOrdered(baseline)
    ensures artifacts == ForObserved(observed, baseline) + NotFound(observed, baseline, |baseline|)
    ensures forall i :: 0 <= i < |artifacts| ==> IsRight(artifacts[i], observed, baseline)
  {
    artifacts := [];
    for i := 0 to |observed|
      invariant artifacts == ForObserved(observed, baseline)[..i]
    {
      var rel, seen := observed[i].key, observed[i].value;
      GetAtIndex(observed, i);
      var expected := Get(baseline, rel);
      var status;
      match (expected, seen) {
        case (Some(e), Some(o)) => status := if e == o then Current else Modified;
        case (Some(_), None) => status := Missing;
        case (None, Some(_)) => status := Foreign;
        case (None, None) => status := Error;
      }
      artifacts := artifacts + [ArtifactHealth(rel, expected, seen, status)];
    }
    ghost var first := artifacts;
    for j := 0 to |baseline|
      invariant artifacts == first + NotFound(observed, baseline, j)
    {
      GetAtIndex(baseline, j);
      if Get(observed, baseline[j].key).None? {
        artifacts := artifacts + [ArtifactHealth(baseline[j].key, Some(baseline[j].value), None, Missing)];
      }
    }
    VerdictsAreRight(observed, baseline);
  }

  lemma VerdictsAreRight(observed: Observed, baseline: Baseline)
    requires IsOrdered(observed) && IsOrdered(baseline)
    ensures forall a :: a in ForObserved(observed, baseline) + NotFound(observed, baseline, |baseline|) ==>
              IsRight(a, observed, baseline)
  {
    forall a | a in ForObserved(observed, baseline) + NotFound(observed, baseline, |baseline|)
      ensures IsRight(a, observed, baseline)
    {
      UnsortedIsSound(observed, baseline, a);
      JudgedIsRight(observed, baseline, a.target);
    }
  }

  lemma {:induction false} NotFoundAreThose(observed: Observed, baseline: Baseline, n: nat, a: ArtifactHealth)
    requires n <= |baseline|
    ensures a in NotFound(observed, baseline, n) <==>
              exists j :: 0 <= j < n && Get(observed, baseline[j].key).None?
                && a == Judged(observed, baseline, baseline[j].key)
  {
    if n > 0 {
      NotFoundAreThose(observed, baseline, n - 1, a);
    }
  }

  ghost predicate Distinct(artifacts: seq<ArtifactHealth>) {
    forall i, j :: 0 <= i < j < |artifacts| ==> artifacts[i].target != artifacts[j].target
  }

  lemma {:induction false} NotFoundAreDistinct(observed: Observed, baseline: Baseline, n: nat)
    requires IsOrdered(baseline) && n <= |baseline|
    ensures Distinct(NotFound(observed, baseline, n))
  {
    if n > 0 {
      NotFoundAreDistinct(observed, baseline, n - 1);
      var before, last := NotFound(observed, baseline, n - 1), baseline[n - 1].key;
      forall i | 0 <= i < |before| ensures before[i].target != last {
        NotFoundAreThose(observed, baseline, n - 1, before[i]);
        assert before[i] in before;
        var j :| 0 <= j < n - 1 && before[i] == Judged(observed, baseline, baseline[j].key);
        assert Less(baseline[j].key, baseline[n - 1].key);
        LessIsStrict(baseline[j].key, last);
        assert Judged(observed, baseline, baseline[j].key).target != last;
      }
    }
  }

  lemma UnsortedIsDistinct(observed: Observed, baseline: Baseline)
    requires IsOrdered(observed) && IsOrdered(baseline)
    ensures Distinct(ForObserved(observed, baseline) + NotFound(observed, baseline, |baseline|))
  {
    var a, b := ForObserved(observed, baseline), NotFound(observed, baseline, |baseline|);
    forall i, j | 0 <= i < j < |a| ensures a[i].target != a[j].target {
      LessIsStrict(observed[i].key, observed[j].key);
    }
    NotFoundAreDistinct(observed, baseline, |baseline|);
    forall i, j | 0 <= i < |a| && 0 <= j < |b| ensures a[i].target != b[j].target {
      GetAtIndex(observed, i);
      NotFoundAreThose(observed, baseline, |baseline|, b[j]);
    }
  }

  lemma {:induction false} UnsortedIsSound(observed: Observed, baseline: Baseline, x: ArtifactHealth)
    requires IsOrdered(observed) && IsOrdered(baseline)
    requires x in ForObserved(observed, baseline) + NotFound(observed, baseline, |baseline|)
    ensures IsKnown(observed, baseline, x.target) && x == Judged(observed, baseline, x.target)
  {
    var a, b := ForObserved(observed, baseline), NotFound(observed, baseline, |baseline|);
    if x in a {
      var i :| 0 <= i < |a| && a[i] == x;
      GetAtIndex(observed, i);
      assert Judged(observed, baseline, observed[i].key).target == observed[i].key;
    } else {
      NotFoundAreThose(observed, baseline, |baseline|, x);
      var j :| 0 <= j < |baseline| && x == Judged(observed, baseline, baseline[j].key);
      GetAtIndex(baseline, j);
      assert Judged(observed, baseline, baseline[j].key).target == baseline[j].key;
    }
  }

  lemma UnsortedIsComplete(observed: Observed, baseline: Baseline, target: string)
    requires IsOrdered(observed) && IsOrdered(baseline) && IsKnown(observed, baseline, target)
    ensures Judged(observed, baseline, target) in ForObserved(observed, baseline) + NotFound(observed, baseline, |baseline|)
  {
    var x := Judged(observed, baseline, target);
    if Get(observed, target).Some? {
      var i := IndexOf(observed, target);
      assert ForObserved(observed, baseline)[i] == x;
    } else {
      var j := IndexOf(baseline, target);
      assert x == Judged(observed, baseline, baseline[j].key);
      NotFoundAreThose(observed, baseline, |baseline|, x);
    }
  }

  lemma SortedAndDistinct(unsorted: seq<ArtifactHealth>, sorted: seq<ArtifactHealth>)
    requires Distinct(unsorted) && Sorted(sorted, TargetOf) && multiset(sorted) == multiset(unsorted)
    ensures StrictlySorted(sorted, TargetOf)
  {
    DistinctInAnyOrder(unsorted, sorted);
    forall i, j | 0 <= i < j < |sorted| ensures Less(TargetOf(sorted[i]), TargetOf(sorted[j])) {
      LessIsStrict(sorted[i].target, sorted[j].target);
      assert !Less(TargetOf(sorted[j]), TargetOf(sorted[i]));
    }
  }

  lemma {:induction false} DistinctInAnyOrder(a: seq<ArtifactHealth>, b: seq<ArtifactHealth>)
    requires Distinct(a) && multiset(a) == multiset(b)
    ensures Distinct(b)
    decreases |a|
  {
    if a == [] {
      Permutations.EmptyHasNoOther(b);
    } else {
      var front, last := a[..|a| - 1], a[|a| - 1];
      var i := Permutations.TakeOut(a, b);
      var rest := b[..i] + b[i + 1..];
      DistinctInAnyOrder(front, rest);
      forall k | 0 <= k < |rest| ensures rest[k].target != last.target {
        assert rest[k] in multiset(front);
        var l :| 0 <= l < |front| && front[l] == rest[k];
        assert a[l].target != a[|a| - 1].target;
      }
      forall p, q | 0 <= p < q < |b| ensures b[p].target != b[q].target {
        assert p != i ==> b[p] == rest[if p < i then p else p - 1];
        assert q != i ==> b[q] == rest[if q < i then q else q - 1];
      }
    }
  }

  // ------------------------------------------------------------------
  // The report
  // ------------------------------------------------------------------

  method Report(observed: Observed, baseline: Baseline) returns (report: HealthReport)
    requires IsOrdered(observed) && IsOrdered(baseline)
    ensures IsReport(report.artifacts, observed, baseline)
    ensures forall i :: 0 <= i < |report.artifacts| ==> IsRight(report.artifacts[i], observed, baseline)
    ensures report.ok <==> forall i :: 0 <= i < |report.artifacts| ==> report.artifacts[i].status == Current
  {
    var artifacts := Diff(observed, baseline);
    ghost var unsorted := artifacts;
    artifacts := SortBy(artifacts, TargetOf);
    SortSorts(unsorted, TargetOf);
    SortPermutes(unsorted, TargetOf);
    ReportIsReport(unsorted, artifacts, observed, baseline);
    forall i | 0 <= i < |artifacts| ensures IsRight(artifacts[i], observed, baseline) {
      JudgedIsRight(observed, baseline, artifacts[i].target);
    }
    var ok := forall i :: 0 <= i < |artifacts| ==> artifacts[i].status == Current;
    report := HealthReport(artifacts, ok);
  }

  lemma ReportIsReport(unsorted: seq<ArtifactHealth>, sorted: seq<ArtifactHealth>, observed: Observed, baseline: Baseline)
    requires IsOrdered(observed) && IsOrdered(baseline)
    requires unsorted == ForObserved(observed, baseline) + NotFound(observed, baseline, |baseline|)
    requires Sorted(sorted, TargetOf) && multiset(sorted) == multiset(unsorted)
    ensures IsReport(sorted, observed, baseline)
  {
    UnsortedIsDistinct(observed, baseline);
    SortedAndDistinct(unsorted, sorted);
    forall i | 0 <= i < |sorted|
      ensures IsKnown(observed, baseline, sorted[i].target) && sorted[i] == Judged(observed, baseline, sorted[i].target)
    {
      assert sorted[i] in multiset(unsorted);
      UnsortedIsSound(observed, baseline, sorted[i]);
    }
    forall target | IsKnown(observed, baseline, target) ensures Judged(observed, baseline, target) in sorted {
      UnsortedIsComplete(observed, baseline, target);
      assert Judged(observed, baseline, target) in multiset(sorted);
    }
  }

  lemma JudgedIsRight(observed: Observed, baseline: Baseline, target: string)
    requires IsKnown(observed, baseline, target)
    ensures IsRight(Judged(observed, baseline, target), observed, baseline)
  {
  }

  // What was found of a target, as far as it could be read.
  function FoundHash(observed: Observed, target: string): Option<string> {
    if WasRead(observed, target) then Get(observed, target).value else None
  }

  /** The modified, foreign and missing targets of a report are together exactly those of
      which the hash found is not the hash recorded; each target is there at most once. */
  lemma DifferencesAreReported(artifacts: seq<ArtifactHealth>, observed: Observed, baseline: Baseline, target: string)
    requires IsReport(artifacts, observed, baseline)
    ensures FoundHash(observed, target) != Get(baseline, target) <==>
              exists a :: a in artifacts && a.target == target
                && (a.status == Modified || a.status == Foreign || a.status == Missing)
    ensures forall i, j :: 0 <= i < |artifacts| && 0 <= j < |artifacts| && artifacts[i].target == artifacts[j].target ==>
              i == j
  {
    if IsKnown(observed, baseline, target) {
      JudgedIsRight(observed, baseline, target);
      assert Judged(observed, baseline, target) in artifacts;
    }
    forall i, j | 0 <= i < j < |artifacts| ensures artifacts[i].target != artifacts[j].target {
      LessIsStrict(TargetOf(artifacts[i]), TargetOf(artifacts[j]));
      assert Less(TargetOf(artifacts[i]), TargetOf(artifacts[j]));
    }
  }

  // The target was found with just the hash that was recorded, or neither.
  predicate Agrees(observed: Observed, baseline: Baseline, target: string) {
    match Get(baseline, target)
    case None => Get(observed, target).None?
    case Some(hash) => Get(observed, target) == Some(Some(hash))
  }

  lemma CurrentMeansAgreement(observed: Observed, baseline: Baseline, target: string)
    ensures IsKnown(observed, baseline, target) ==>
              (Judged(observed, baseline, target).status == Current <==> Agrees(observed, baseline, target))
  {
  }

  /** Everything is current exactly when the targets found are those recorded, each
      with its recorded hash. */
  lemma OkMeansEqual(artifacts: seq<ArtifactHealth>, observed: Observed, baseline: Baseline)
    requires IsReport(artifacts, observed, baseline)
    ensures (forall i :: 0 <= i < |artifacts| ==> artifacts[i].status == Current) <==>
            (forall target :: Agrees(observed, baseline, target))
  {
    if forall i :: 0 <= i < |artifacts| ==> artifacts[i].status == Current {
      forall target ensures Agrees(observed, baseline, target) {
        CurrentMeansAgreement(observed, baseline, target);
        if IsKnown(observed, baseline, target) {
          var i :| 0 <= i < |artifacts| && artifacts[i] == Judged(observed, baseline, target);
          assert artifacts[i].status == Current;
        }
      }
    }
    if forall target :: Agrees(observed, baseline, target) {
      forall i | 0 <= i < |artifacts| ensures artifacts[i].status == Current {
        CurrentMeansAgreement(observed, baseline, artifacts[i].target);
        assert Agrees(observed, baseline, artifacts[i].target);
      }
    }
  }
}
