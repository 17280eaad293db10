/** What a premature collection does: a row taken while the request that inserted it
    is still at work always lets a later request replay a response its row's inserter
    never gave. */
module IdempotencyUnsafe {
  import opened Wrappers
  import opened IdempotencyTable
  import opened Idempotency
  import opened IdempotencyCounts
  import opened IdempotencyReplay

  // ------------------------------------------------------------------
  // One such run
  // ------------------------------------------------------------------

  function Post(body: Bytes): Request {
    Request(POST, "/v1/deploys", Some("k"), Some(body))
  }

  function JsonText(text: string): JsonResponse {
    HandlerResponse(200, Some(JSON), Some(Utf8(text)))
  }

  const DEPLOYS := Slot("k", "POST /v1/deploys")

  lemma PostIsKeyed(sha: Sha, body: Bytes)
    requires |body| <= MAX_BODY_BYTES
    ensures Classify(sha, Post(body)) == Keyed(DEPLOYS, sha(body))
  {
    assert ValidKey("k");
    assert "POST" + " " + "/v1/deploys" == "POST /v1/deploys";
  }

  // Request 0 is running its handler when its row is collected.
  lemma OutlivesItsRow(sha: Sha) returns (steps: seq<Step>, s: State)
    ensures Runs(sha, Empty(), steps) && After(sha, Empty(), steps) == s && !SafeRun(sha, Empty(), steps)
    ensures s.table == map[] && s.now == 86_400_001
    ensures |s.procs| == 1 && s.procs[0] == Proc(Post([1]), Keyed(DEPLOYS, sha([1])), Running(86_400_000))
  {
    steps, s := [], Empty();
    PostIsKeyed(sha, [1]);
    steps, s := Then(sha, Empty(), steps, s, Arrive(Post([1])));
    assert s.procs == [Proc(Post([1]), Keyed(DEPLOYS, sha([1])), LookingUp(false))];
    steps, s := Then(sha, Empty(), steps, s, Act(0, Go));
    steps, s := Then(sha, Empty(), steps, s, Act(0, Go));
    assert s.procs[0].pc == Reserved(86_400_000);
    steps, s := Then(sha, Empty(), steps, s, Act(0, Go));
    steps, s := Then(sha, Empty(), steps, s, Tick(86_400_001));
    assert DEPLOYS in Expired(s.table, s.now) && s.table.Keys == {DEPLOYS};
    assert !SafeFor(s, Collect, DEPLOYS);
    steps, s := Then(sha, Empty(), steps, s, Collect);
    assert s.table == map[];
  }

  // Request 1 has inserted the slot's new row, and both run their handlers.
  lemma AnotherTakesItsSlot(sha: Sha) returns (steps: seq<Step>, s: State)
    ensures Runs(sha, Empty(), steps) && After(sha, Empty(), steps) == s && !SafeRun(sha, Empty(), steps)
    ensures |s.procs| == 2 && s.procs[0].job == Keyed(DEPLOYS, sha([1])) && s.procs[0].pc.Running?
      && s.procs[1].job == Keyed(DEPLOYS, sha([2])) && s.procs[1].pc.Running?
    ensures DEPLOYS in s.table && s.table[DEPLOYS].requestHash == sha([2]) && s.table[DEPLOYS].owner == 1
  {
    steps, s := OutlivesItsRow(sha);
    PostIsKeyed(sha, [2]);
    steps, s := Then(sha, Empty(), steps, s, Arrive(Post([2])));
    assert s.procs[1] == Proc(Post([2]), Keyed(DEPLOYS, sha([2])), LookingUp(false));
    steps, s := Then(sha, Empty(), steps, s, Act(1, Go));
    steps, s := Then(sha, Empty(), steps, s, Act(1, Go));
    assert s.procs[1].pc.Reserved?;
    steps, s := Then(sha, Empty(), steps, s, Act(1, Go));
  }

  // Request 0 finalises the row of request 1.
  lemma FinalisesAnothersRow(sha: Sha) returns (steps: seq<Step>, s: State)
    ensures Runs(sha, Empty(), steps) && After(sha, Empty(), steps) == s && !SafeRun(sha, Empty(), steps)
    ensures |s.procs| == 2 && s.procs[0].job == Keyed(DEPLOYS, sha([1]))
      && s.procs[0].pc == Done(Fresh(JsonText("first")))
      && s.procs[1].job == Keyed(DEPLOYS, sha([2])) && s.procs[1].pc.Running?
    ensures DEPLOYS in s.table && s.table[DEPLOYS].requestHash == sha([2])
      && s.table[DEPLOYS].response == Some(Stored(200, "first")) && s.table[DEPLOYS].owner == 1
  {
    steps, s := AnotherTakesItsSlot(sha);
    steps, s := Then(sha, Empty(), steps, s, Act(0, Reply(JsonText("first"))));
    assert s.procs[0].pc.Finalizing?;
    steps, s := Then(sha, Empty(), steps, s, Act(0, Go));
  }

  /** Safety is needed.  A handler that outlives its row's time to live finalises
      whatever row has the slot by then: below, request 2 replays the response of
      request 0, although request 1, with another body, inserted the row and its
      own handler returned something else. */
  lemma LateFinaliseBreaksReplay(sha: Sha) returns (steps: seq<Step>, s: State)
    requires sha([1]) != sha([2])
    ensures Runs(sha, Empty(), steps) && After(sha, Empty(), steps) == s && !SafeRun(sha, Empty(), steps)
    ensures |s.procs| == 3
      && s.procs[0].pc == Done(Fresh(JsonText("first")))
      && s.procs[1].pc == Done(Fresh(JsonText("second")))
      && s.procs[2].pc == Done(Replayed(200, "first", 1))
      && s.procs[2].job == s.procs[1].job != s.procs[0].job
  {
    steps, s := FinalisesAnothersRow(sha);
    PostIsKeyed(sha, [2]);
    steps, s := Then(sha, Empty(), steps, s, Arrive(Post([2])));
    assert s.procs[2] == Proc(Post([2]), Keyed(DEPLOYS, sha([2])), LookingUp(false));
    steps, s := Then(sha, Empty(), steps, s, Act(2, Go));
    steps, s := Then(sha, Empty(), steps, s, Act(1, Reply(JsonText("second"))));
    steps, s := Then(sha, Empty(), steps, s, Act(1, Go));
  }

  // ------------------------------------------------------------------
  // Every premature collection
  // ------------------------------------------------------------------

  // A run that begins with a collection and has no other.
  ghost predicate CollectsOnce(steps: seq<Step>) {
    steps != [] && steps[0] == Collect && forall i :: 1 <= i < |steps| ==> !steps[i].Collect?
  }

  // Where such a run has got to.
  ghost predicate Leads(sha: Sha, start: State, steps: seq<Step>, s: State) {
    CollectsOnce(steps) && Runs(sha, start, steps) && After(sha, start, steps) == s
  }

  lemma Onward(sha: Sha, start: State, steps: seq<Step>, s: State, step: Step) returns (steps': seq<Step>, s': State)
    requires Leads(sha, start, steps, s) && Enabled(s, step) && !step.Collect?
    ensures Leads(sha, start, steps', s') && s' == Apply(sha, s, step)
  {
    steps', s' := Then(sha, start, steps, s, step);
  }

  // The slot's row is one that request `owner`, now running its handler, inserted.
  ghost predicate TakenOver(s: State, slot: Slot, hash: string, owner: nat) {
    && owner < |s.procs| && s.procs[owner].job == Keyed(slot, hash) && s.procs[owner].pc.Running?
    && slot in s.table && s.table[slot].owner == owner && s.table[slot].requestHash == hash
  }

  // The row is collected, and another request on its slot inserts and runs.
  lemma TakesOver(sha: Sha, start: State, slot: Slot, req: Request, hash: string) returns (steps: seq<Step>, s: State)
    requires slot in Expired(start.table, start.now) && Classify(sha, req) == Keyed(slot, hash)
    ensures Leads(sha, start, steps, s)
    ensures |s.procs| == |start.procs| + 1 && s.procs[..|start.procs|] == start.procs
    ensures TakenOver(s, slot, hash, |start.procs|)
  {
    var q := |start.procs|;
    steps, s := Then(sha, start, [], start, Collect);
    assert steps == [Collect];
    steps, s := Onward(sha, start, steps, s, Arrive(req));
    assert s.procs == start.procs + [Proc(req, Keyed(slot, hash), LookingUp(false))] && slot !in s.table;
    steps, s := Onward(sha, start, steps, s, Act(q, Go));
    assert s.procs == start.procs + [Proc(req, Keyed(slot, hash), Inserting)] && slot !in s.table;
    steps, s := Onward(sha, start, steps, s, Act(q, Go));
    assert s.procs[..q] == start.procs && s.procs[q].job == Keyed(slot, hash) && s.procs[q].pc.Reserved?;
    assert slot in s.table && s.table[slot].owner == q && s.table[slot].requestHash == hash;
    steps, s := Onward(sha, start, steps, s, Act(q, Go));
  }

  // The request at work gets as far as finalising.
  lemma ReachesFinalise(sha: Sha, start: State, steps: seq<Step>, s: State, p: nat) returns (steps': seq<Step>, s': State)
    requires Leads(sha, start, steps, s) && p < |s.procs| && s.procs[p].job.Keyed? && Holding(s.procs[p].pc)
    ensures Leads(sha, start, steps', s') && s'.table == s.table && |s'.procs| == |s.procs|
    ensures s'.procs[p].job == s.procs[p].job && s'.procs[p].pc.Finalizing?
    ensures forall i :: 0 <= i < |s.procs| && i != p ==> s'.procs[i] == s.procs[i]
  {
    steps', s' := steps, s;
    if s'.procs[p].pc.Reserved? {
      steps', s' := Onward(sha, start, steps', s', Act(p, Go));
    }
    if s'.procs[p].pc.Running? {
      steps', s' := Onward(sha, start, steps', s', Act(p, Reply(JsonText("late"))));
    }
  }

  // It finalises the row that is not its own.
  lemma FinalisesLate(sha: Sha, start: State, steps: seq<Step>, s: State, p: nat, slot: Slot, hash: string, q: nat)
    returns (steps': seq<Step>, s': State, response: JsonResponse)
    requires Leads(sha, start, steps, s) && TakenOver(s, slot, hash, q)
    requires p < |s.procs| && p != q && s.procs[p].job.Keyed? && s.procs[p].job.slot == slot && s.procs[p].pc.Finalizing?
    ensures Leads(sha, start, steps', s') && TakenOver(s', slot, hash, q) && |s'.procs| == |s.procs|
    ensures s'.procs[p].pc == Done(Fresh(response)) && s'.procs[p].job == s.procs[p].job
    ensures s'.table[slot].response == Some(ToStored(response))
  {
    response := s.procs[p].pc.response;
    steps', s' := Onward(sha, start, steps, s, Act(p, Go));
  }

  // A third request replays what it finds.
  lemma ReplaysIt(sha: Sha, start: State, steps: seq<Step>, s: State, slot: Slot, req: Request, hash: string,
                  q: nat, response: JsonResponse)
    returns (steps': seq<Step>, s': State)
    requires Leads(sha, start, steps, s) && TakenOver(s, slot, hash, q) && Classify(sha, req) == Keyed(slot, hash)
    requires s.table[slot].response == Some(ToStored(response))
    ensures Leads(sha, start, steps', s') && TakenOver(s', slot, hash, q)
    ensures |s'.procs| == |s.procs| + 1 && s'.procs[..|s.procs|] == s.procs
    ensures s'.procs[|s.procs|].job == Keyed(slot, hash)
    ensures s'.procs[|s.procs|].pc == Done(Replayed(response.status, BodyText(response.body.value), q))
  {
    var n := |s.procs|;
    steps', s' := Onward(sha, start, steps, s, Arrive(req));
    assert s'.procs == s.procs + [Proc(req, Keyed(slot, hash), LookingUp(false))];
    steps', s' := Onward(sha, start, steps', s', Act(n, Go));
  }

  // The row's own inserter then answers something else.
  lemma AnswersDifferently(sha: Sha, start: State, steps: seq<Step>, s: State, slot: Slot, hash: string,
                           q: nat, response: JsonResponse)
    returns (steps': seq<Step>, s': State)
    requires Leads(sha, start, steps, s) && TakenOver(s, slot, hash, q)
    ensures Leads(sha, start, steps', s') && |s'.procs| == |s.procs|
    ensures forall i :: 0 <= i < |s.procs| && i != q ==> s'.procs[i] == s.procs[i]
    ensures s'.procs[q].job == s.procs[q].job && s'.procs[q].pc.Done? && s'.procs[q].pc.outcome.Fresh?
    ensures s'.procs[q].pc.outcome.response.status != response.status
  {
    var other: JsonResponse := HandlerResponse(if response.status == 200 then 201 else 200, Some(JSON), Some(Utf8("")));
    steps', s' := Onward(sha, start, steps, s, Act(q, Reply(other)));
    assert s'.procs[q].pc.Finalizing? && s'.procs[q].pc.response == other;
    steps', s' := Onward(sha, start, steps', s', Act(q, Go));
  }

  /** Whenever a row is due for collection while the request that inserted it is still
      at work, the collection lets two more requests with any one body on its slot go
      wrong: the first inserts a row and answers, and the second replays, as if from
      the first, what the request that lost its row answered. */
  lemma PrematureCollectionBreaksReplay(sha: Sha, s: State, slot: Slot, body: Bytes) returns (steps: seq<Step>, s': State)
    requires SafeInv(s) && Classified(sha, s) && |body| <= MAX_BODY_BYTES
    requires slot in Expired(s.table, s.now) && !s.procs[s.table[slot].owner].pc.Done?
    ensures Leads(sha, s, steps, s') && |s'.procs| == |s.procs| + 2
    ensures var first, second, replay := s.table[slot].owner, |s.procs|, |s.procs| + 1;
      && s'.procs[replay].job == s'.procs[second].job == Keyed(slot, sha(body))
      && s'.procs[replay].pc.Done? && s'.procs[replay].pc.outcome.Replayed? && s'.procs[replay].pc.outcome.from == second
      && !ReplayIsFaithful(s', replay)
      && s'.procs[first].job == s.procs[first].job
      && CameFrom(s'.procs[first], Stored(s'.procs[replay].pc.outcome.status, s'.procs[replay].pc.outcome.body))
  {
    assert RowIsOwned(s, slot);
    var p, q := s.table[slot].owner, |s.procs|;
    var req := s.procs[p].req.(body := Some(body));
    assert s.procs[p].job == Classify(sha, s.procs[p].req);
    assert Classify(sha, req) == Keyed(slot, sha(body));
    var response: JsonResponse;
    steps, s' := TakesOver(sha, s, slot, req, sha(body));
    assert s'.procs[p] == s.procs[p];
    steps, s' := ReachesFinalise(sha, s, steps, s', p);
    steps, s', response := FinalisesLate(sha, s, steps, s', p, slot, sha(body), q);
    steps, s' := ReplaysIt(sha, s, steps, s', slot, req, sha(body), q, response);
    assert s'.procs[p].pc == Done(Fresh(response));
    steps, s' := AnswersDifferently(sha, s, steps, s', slot, sha(body), q, response);
  }

  /** After any safe run, a collection is harmless, in that every replay of every run
      through it with no later collection is faithful, exactly when it takes no row
      whose request is still at work. */
  lemma CollectionIsHarmlessExactly(sha: Sha, before: seq<Step>)
    requires Runs(sha, Empty(), before) && SafeRun(sha, Empty(), before)
    ensures var s := After(sha, Empty(), before);
      SafeStep(s, Collect) <==>
      forall steps, s' :: Leads(sha, s, steps, s') ==> EveryReplayIsFaithful(s')
  {
    var s := After(sha, Empty(), before);
    SafeRunKeepsInv(sha, Empty(), before);
    EmptyHasInv();
    RunKeepsInv(sha, Empty(), before);
    if SafeStep(s, Collect) {
      forall steps, s' | Leads(sha, s, steps, s') ensures EveryReplayIsFaithful(s') {
        NoCollectionIsSafe(sha, Apply(sha, s, steps[0]), steps[1..]);
        SafeRunKeepsInv(sha, s, steps);
      }
    } else {
      var slot :| slot in Expired(s.table, s.now)
               && !(s.table[slot].owner < |s.procs| && s.procs[s.table[slot].owner].pc.Done?);
      assert RowIsOwned(s, slot);
      var steps, s' := PrematureCollectionBreaksReplay(sha, s, slot, []);
      assert Leads(sha, s, steps, s') && !EveryReplayIsFaithful(s');
    }
  }
}
