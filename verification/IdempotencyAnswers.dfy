/** What a request is answered, said over the rows of the table and the parts of the
    request: which requests go through the table at all, what every lookup makes of the
    row it finds, and which responses are kept. */
module IdempotencyAnswers {
  import opened Wrappers
  import opened IdempotencyTable
  import opened Idempotency
  import opened IdempotencyCounts

  // ------------------------------------------------------------------
  // Arriving
  // ------------------------------------------------------------------

  predicate HasWhitespace(key: string) {
    exists i :: 0 <= i < |key| && key[i] in " \t\n\r\U{000B}\U{000C}"
  }

  predicate Mutates(req: Request) {
    req.verb == POST || req.verb == PUT || req.verb == PATCH || req.verb == DELETE
  }

  // The key is there, and not one to refuse.
  predicate HasGoodKey(req: Request) {
    req.key.Some? && req.key.value != "" && |req.key.value| <= 255 && !HasWhitespace(req.key.value)
  }

  lemma WhitespaceIsThat(c: char)
    ensures IsWhitespace(c) <==> c in " \t\n\r\U{000B}\U{000C}"
  {
  }

  lemma GoodKeysAreValid(key: string)
    ensures ValidKey(key) <==> key != "" && |key| <= 255 && !HasWhitespace(key)
  {
    forall i | 0 <= i < |key| ensures IsWhitespace(key[i]) <==> key[i] in " \t\n\r\U{000B}\U{000C}" {
      WhitespaceIsThat(key[i]);
    }
  }

  /** A request goes past the table if and only if its method is none of POST, PUT,
      PATCH and DELETE or it has no key; it is answered 400 at once if and only if
      otherwise its key is empty, longer than 255 characters or holds whitespace, and
      413 if and only if its key is good but its body cannot be read or is larger than
      a megabyte.  Any other request looks its key up, on its method and path. */
  lemma ArrivesAs(sha: Sha, s: State, req: Request)
    ensures var s' := Apply(sha, s, Arrive(req));
      var p := s'.procs[|s.procs|];
      && s'.table == s.table && s'.log == s.log && s'.procs == s.procs + [p] && p.req == req
      && (p.pc == Bypassing <==> !Mutates(req) || req.key.None?)
      && (p.pc == Done(InvalidKey) <==> Mutates(req) && req.key.Some? && !HasGoodKey(req))
      && (p.pc == Done(TooLarge) <==>
            Mutates(req) && HasGoodKey(req) && (req.body.None? || |req.body.value| > 1_048_576))
      && (p.pc == LookingUp(false) <==>
            Mutates(req) && HasGoodKey(req) && req.body.Some? && |req.body.value| <= 1_048_576)
      && (p.pc == LookingUp(false) ==>
            p.job == Keyed(Slot(req.key.value, VerbName(req.verb) + " " + req.path), sha(req.body.value)))
  {
    if req.key.Some? {
      GoodKeysAreValid(req.key.value);
    }
  }

  lemma VerbsAreNamed()
    ensures VerbName(POST) == "POST" && VerbName(PUT) == "PUT" && VerbName(PATCH) == "PATCH"
    ensures VerbName(DELETE) == "DELETE"
  {
  }

  // ------------------------------------------------------------------
  // Looking up
  // ------------------------------------------------------------------

  // Only a status that a response can have is ever stored.
  ghost predicate StatusesAreHttp(s: State) {
    forall slot :: slot in s.table && s.table[slot].response.Some? ==>
      100 <= s.table[slot].response.value.status <= 999
  }

  lemma StepKeepsStatuses(sha: Sha, s: State, step: Step)
    requires Enabled(s, step) && StatusesAreHttp(s)
    ensures StatusesAreHttp(Apply(sha, s, step))
  {
  }

  lemma {:induction false} RunKeepsStatuses(sha: Sha, s: State, steps: seq<Step>)
    requires Runs(sha, s, steps) && StatusesAreHttp(s)
    ensures StatusesAreHttp(After(sha, s, steps))
    decreases steps
  {
    if steps != [] {
      StepKeepsStatuses(sha, s, steps[0]);
      RunKeepsStatuses(sha, Apply(sha, s, steps[0]), steps[1..]);
    }
  }

  // The request's next step is a lookup: the first, the one after a lost insert, or
  // that of a poll.
  ghost predicate IsAtLookup(s: State, who: nat) {
    && who < |s.procs| && Enabled(s, Act(who, Go))
    && (s.procs[who].pc.LookingUp? || s.procs[who].pc.Sleeping?)
  }

  // It was made under this key, with a body of this hash.
  ghost predicate IsUnder(sha: Sha, p: Proc, slot: Slot, hash: string) {
    && p.req.key == Some(slot.key) && p.req.body.Some?
    && slot.route == VerbName(p.req.verb) + " " + p.req.path
    && hash == sha(p.req.body.value)
    && p.job == Keyed(slot, hash)
  }

  lemma LooksUpItsOwn(sha: Sha, s: State, who: nat) returns (slot: Slot, hash: string)
    requires Classified(sha, s) && IsAtLookup(s, who) && Fits(s.procs[who])
    ensures IsUnder(sha, s.procs[who], slot, hash)
  {
    assert s.procs[who].job == Classify(sha, s.procs[who].req);
    slot, hash := s.procs[who].job.slot, s.procs[who].job.hash;
  }

  lemma FinishedRowAnswers(s: State, who: nat, slot: Slot, hash: string, r: Stored)
    requires IsAtLookup(s, who) && s.procs[who].job == Keyed(slot, hash)
    requires slot in s.table && s.table[slot].response == Some(r) && 100 <= r.status <= 999
    ensures var pc := ActOnce(s, who, Go).procs[who].pc;
      && (pc == Done(Replayed(r.status, r.body, s.table[slot].owner)) <==> s.table[slot].requestHash == hash)
      && (pc == Done(Mismatch) <==> s.table[slot].requestHash != hash)
  {
  }

  /** In every run, a lookup that finds the row finished, be it the first, the one after
      a lost insert or that of a poll, ends the request: in a replay of that very row if
      and only if the row was made for a body of the same hash, and in a mismatch if and
      only if it was not. */
  lemma FinishedRowEndsRequest(sha: Sha, steps: seq<Step>, who: nat, slot: Slot, r: Stored)
    requires Runs(sha, Empty(), steps)
    requires var s := After(sha, Empty(), steps);
      && IsAtLookup(s, who) && s.procs[who].req.key == Some(slot.key)
      && slot.route == VerbName(s.procs[who].req.verb) + " " + s.procs[who].req.path
      && slot in s.table && s.table[slot].response == Some(r)
    ensures var s := After(sha, Empty(), steps);
      var row, pc, body := s.table[slot], Apply(sha, s, Act(who, Go)).procs[who].pc, s.procs[who].req.body;
      && body.Some? && 100 <= r.status <= 999
      && (pc == Done(Replayed(r.status, r.body, row.owner)) <==> row.requestHash == sha(body.value))
      && (pc == Done(Mismatch) <==> row.requestHash != sha(body.value))
  {
    EmptyHasInv();
    RunKeepsInv(sha, Empty(), steps);
    RunKeepsStatuses(sha, Empty(), steps);
    var s := After(sha, Empty(), steps);
    assert Fits(s.procs[who]);
    var own, hash := LooksUpItsOwn(sha, s, who);
    assert own == slot;
    FinishedRowAnswers(s, who, slot, hash, r);
  }

  /** A lookup that finds the row in flight sets the request polling, or keeps it polling
      until five seconds have gone, and then ends it in a conflict. */
  lemma RowInFlightIsWaitedFor(s: State, who: nat, slot: Slot, hash: string)
    requires IsAtLookup(s, who) && s.procs[who].job == Keyed(slot, hash)
    requires slot in s.table && s.table[slot].response.None?
    ensures var pc, pc' := s.procs[who].pc, ActOnce(s, who, Go).procs[who].pc;
      && (pc.LookingUp? ==> pc' == Sleeping(Poll(s.now, 10, s.now + 10, 0)))
      && (pc.Sleeping? ==>
            && (s.now - pc.poll.started > 5000 <==> pc' == Done(InFlight))
            && (s.now - pc.poll.started <= 5000 <==> pc'.Sleeping?)
            && (pc'.Sleeping? ==> pc'.poll.started == pc.poll.started && pc'.poll.lookups == pc.poll.lookups + 1
                                  && pc'.poll.wakeAt == s.now + pc'.poll.backoff
                                  && (pc'.poll.backoff == 2 * pc.poll.backoff || pc'.poll.backoff == 250)))
  {
  }

  /** A lookup that finds no row lets the request insert one if it is the first, is an
      error after a lost insert, and is a conflict in a poll. */
  lemma NoRowIsInserted(s: State, who: nat, slot: Slot, hash: string)
    requires IsAtLookup(s, who) && s.procs[who].job == Keyed(slot, hash) && slot !in s.table
    ensures ActOnce(s, who, Go).procs[who].pc ==
      match s.procs[who].pc
      case LookingUp(false) => Inserting
      case LookingUp(true) => Done(Internal)
      case _ => Done(InFlight)
  {
  }

  /** A failing database call ends a request in a server error and changes no row, except
      when only storing its response failed: then it ends in that response. */
  lemma FailingCallIsReported(s: State, who: nat, slot: Slot, hash: string)
    requires who < |s.procs| && Enabled(s, Act(who, DbFails)) && s.procs[who].job == Keyed(slot, hash)
    ensures ActOnce(s, who, DbFails).table == s.table
    ensures ActOnce(s, who, DbFails).procs[who].pc ==
      match s.procs[who].pc
      case Finalizing(_, r) => Done(Fresh(r))
      case _ => Done(Internal)
  {
  }

  // ------------------------------------------------------------------
  // Inserting, and keeping the response
  // ------------------------------------------------------------------

  /** An insert makes the row of the request, in flight for a day, if there is none; if
      another request was faster, the row is looked up once more. */
  lemma InsertsOnce(s: State, who: nat, slot: Slot, hash: string)
    requires who < |s.procs| && s.procs[who].pc.Inserting? && s.procs[who].job == Keyed(slot, hash)
    ensures var s' := ActOnce(s, who, Go);
      && (slot in s.table ==> s'.table == s.table && s'.procs[who].pc == LookingUp(true))
      && (slot !in s.table ==> s'.table == s.table[slot := Row(hash, None, s.now + 86_400_000, who)]
                               && s'.procs[who].pc == Reserved(s.now + 86_400_000))
  {
  }

  predicate BeginsAsJson(contentType: string) {
    |contentType| >= 16 && contentType[..16] == "application/json"
  }

  lemma JsonIsThat(r: HandlerResponse)
    ensures IsJson(r) <==> r.contentType.Some? && BeginsAsJson(r.contentType.value)
  {
    assert |JSON| == 16;
    if r.contentType.Some? && JSON <= r.contentType.value {
      assert r.contentType.value[..16] == JSON;
    }
  }

  lemma ParametersAreNoMatter()
    ensures BeginsAsJson("application/json; charset=utf-8")
    ensures !BeginsAsJson("application/problem+json") && !BeginsAsJson("text/plain; charset=utf-8")
  {
    assert "application/json; charset=utf-8"[..16] == "application/json";
    assert "application/problem+json"[..16][12] == 'p' && "application/json"[12] == 'j';
    assert "text/plain; charset=utf-8"[..16][0] == 't';
  }

  /** What a handler answers is stored if and only if its body could be buffered and its
      content type begins with application/json; any other answer goes out as it is. */
  lemma ResponseIsKeptExactly(s: State, who: nat, slot: Slot, hash: string, r: HandlerResponse)
    requires who < |s.procs| && s.procs[who].pc.Running? && s.procs[who].job == Keyed(slot, hash)
    ensures var pc := ActOnce(s, who, Reply(r)).procs[who].pc;
      && ActOnce(s, who, Reply(r)).table == s.table
      && (pc.Finalizing? <==> r.body.Some? && r.contentType.Some? && BeginsAsJson(r.contentType.value))
      && (pc.Finalizing? ==> pc.response == r)
      && (!pc.Finalizing? ==> pc == Done(Fresh(r)))
  {
    JsonIsThat(r);
  }

  /** Storing it changes the response of the slot's row, if there is one, and nothing
      else. */
  lemma ResponseIsStored(s: State, who: nat, slot: Slot, hash: string)
    requires who < |s.procs| && s.procs[who].pc.Finalizing? && s.procs[who].job == Keyed(slot, hash)
    ensures var s', r := ActOnce(s, who, Go), s.procs[who].pc.response;
      && s'.procs[who].pc == Done(Fresh(r))
      && s'.table.Keys == s.table.Keys
      && (forall other :: other in s.table && other != slot ==> s'.table[other] == s.table[other])
      && (slot in s.table ==>
            s'.table[slot] == s.table[slot].(response := Some(Stored(r.status, BodyText(r.body.value)))))
    ensures match s.procs[who].pc.response.body
      case Some(Utf8(text)) => BodyText(Utf8(text)) == text
      case Some(NotUtf8(raw, lossy)) => BodyText(NotUtf8(raw, lossy)) == lossy
      case None => false
  {
  }
}
