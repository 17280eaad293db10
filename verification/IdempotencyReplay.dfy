/** Whose response a replay carries.  As long as no row is collected while the
    request that inserted it is still at work, replays are faithful and uncached
    rows block; with a premature collection they are not. */
module IdempotencyReplay {
  import opened Wrappers
  import opened IdempotencyTable
  import opened Idempotency
  import opened IdempotencyCounts

  // ------------------------------------------------------------------
  // Safe runs
  // ------------------------------------------------------------------

  // The collector does not take the slot's row, or its inserting request has ended.
  ghost predicate SafeFor(s: State, step: Step, slot: Slot) {
    step.Collect? && slot in Expired(s.table, s.now) ==>
      s.table[slot].owner < |s.procs| && s.procs[s.table[slot].owner].pc.Done?
  }

  ghost predicate SafeStep(s: State, step: Step) {
    forall slot :: SafeFor(s, step, slot)
  }

  ghost predicate SafeRun(sha: Sha, s: State, steps: seq<Step>)
    requires Runs(sha, s, steps)
    decreases steps
  {
    steps == [] || (SafeStep(s, steps[0]) && SafeRun(sha, Apply(sha, s, steps[0]), steps[1..]))
  }

  ghost predicate SafeRunFor(sha: Sha, s: State, steps: seq<Step>, slot: Slot)
    requires Runs(sha, s, steps)
    decreases steps
  {
    steps == [] || (SafeFor(s, steps[0], slot) && SafeRunFor(sha, Apply(sha, s, steps[0]), steps[1..], slot))
  }

  lemma {:induction false} Extend(sha: Sha, s: State, steps: seq<Step>, step: Step)
    requires Runs(sha, s, steps) && Enabled(After(sha, s, steps), step)
    ensures Runs(sha, s, steps + [step])
    ensures After(sha, s, steps + [step]) == Apply(sha, After(sha, s, steps), step)
    ensures SafeRun(sha, s, steps + [step]) <==> SafeRun(sha, s, steps) && SafeStep(After(sha, s, steps), step)
    decreases steps
  {
    var all := steps + [step];
    if steps == [] {
      assert all == [step] && all[1..] == [];
      assert Runs(sha, Apply(sha, s, step), []);
    } else {
      assert all[0] == steps[0] && all[1..] == steps[1..] + [step];
      Extend(sha, Apply(sha, s, steps[0]), steps[1..], step);
    }
  }

  // One more step of a run from some state, with the state it leads to.
  lemma Then(sha: Sha, start: State, steps: seq<Step>, s: State, step: Step) returns (steps': seq<Step>, s': State)
    requires Runs(sha, start, steps) && After(sha, start, steps) == s && Enabled(s, step)
    ensures steps' == steps + [step] && s' == Apply(sha, s, step)
    ensures Runs(sha, start, steps') && After(sha, start, steps') == s'
    ensures SafeRun(sha, start, steps') ==> SafeRun(sha, start, steps) && SafeStep(s, step)
  {
    Extend(sha, start, steps, step);
    steps', s' := steps + [step], Apply(sha, s, step);
  }

  // ------------------------------------------------------------------
  // The invariant of safe runs
  // ------------------------------------------------------------------

  function Deadline(pc: Pc): int
    requires Holding(pc)
  {
    match pc
    case Reserved(d) => d
    case Running(d) => d
    case Finalizing(d, _) => d
  }

  predicate CameFrom(p: Proc, response: Stored) {
    p.pc.Done? && p.pc.outcome.Fresh? && Cacheable(p.pc.outcome.response) && response == ToStored(p.pc.outcome.response)
  }

  // A row belongs to the request that inserted it: in flight while that request is
  // at work, and afterwards either left so or holding exactly its response.
  ghost predicate RowIsOwned(s: State, slot: Slot)
    requires slot in s.table
  {
    var row := s.table[slot];
    && row.owner < |s.procs|
    && var p := s.procs[row.owner];
    && p.job == Keyed(slot, row.requestHash)
    && (row.response.None? ==> Holding(p.pc) || (p.pc.Done? && (p.pc.outcome.Fresh? || p.pc.outcome.Aborted?)))
    && (row.response.Some? ==> CameFrom(p, row.response.value))
  }

  // A request at work under a key still has its row.
  ghost predicate HasItsRow(s: State, who: nat)
    requires who < |s.procs| && Holding(s.procs[who].pc)
  {
    var p := s.procs[who];
    && p.job.Keyed? && p.job.slot in s.table
    && var row := s.table[p.job.slot];
    && row.owner == who && row.response.None? && row.expiresAt == Deadline(p.pc)
  }

  // A replay carries the status and body its inserter's handler returned.
  ghost predicate ReplayIsFaithful(s: State, who: nat)
    requires who < |s.procs| && s.procs[who].pc.Done? && s.procs[who].pc.outcome.Replayed?
  {
    var o := s.procs[who].pc.outcome;
    && o.from < |s.procs|
    && CameFrom(s.procs[o.from], Stored(o.status, o.body))
    && s.procs[who].job.Keyed? && s.procs[who].job == s.procs[o.from].job
  }

  ghost predicate On(p: Proc, slot: Slot) {
    p.job.Keyed? && p.job.slot == slot
  }

  ghost predicate EveryoneFits(s: State) {
    forall p :: 0 <= p < |s.procs| ==> Fits(s.procs[p])
  }

  // What safety for one slot keeps.
  ghost predicate SlotInv(s: State, slot: Slot) {
    && EveryoneFits(s)
    && (slot in s.table ==> RowIsOwned(s, slot))
    && (forall p :: 0 <= p < |s.procs| && Holding(s.procs[p].pc) && On(s.procs[p], slot) ==> HasItsRow(s, p))
  }

  ghost predicate EveryReplayIsFaithful(s: State) {
    forall p :: 0 <= p < |s.procs| && s.procs[p].pc.Done? && s.procs[p].pc.outcome.Replayed? ==> ReplayIsFaithful(s, p)
  }

  ghost predicate SafeInv(s: State) {
    && EveryoneFits(s)
    && (forall slot :: slot in s.table ==> RowIsOwned(s, slot))
    && (forall p :: 0 <= p < |s.procs| && Holding(s.procs[p].pc) ==> HasItsRow(s, p))
    && EveryReplayIsFaithful(s)
  }

  lemma HolderKeepsRow(s: State, who: nat, input: Input)
    requires Enabled(s, Act(who, input)) && Holding(s.procs[who].pc) && HasItsRow(s, who)
    requires RowIsOwned(s, s.procs[who].job.slot)
    ensures RowIsOwned(ActOnce(s, who, input), s.procs[who].job.slot)
  {
  }

  lemma OthersLeaveRow(s: State, who: nat, input: Input, slot: Slot)
    requires Enabled(s, Act(who, input)) && Fits(s.procs[who]) && !Holding(s.procs[who].pc)
    requires slot in s.table && RowIsOwned(s, slot)
    ensures slot in ActOnce(s, who, input).table && RowIsOwned(ActOnce(s, who, input), slot)
  {
    assert who != s.table[slot].owner;
  }

  lemma InsertOwnsRow(s: State, who: nat, input: Input)
    requires Enabled(s, Act(who, input)) && Fits(s.procs[who]) && s.procs[who].job.Keyed?
    requires s.procs[who].job.slot !in s.table && s.procs[who].job.slot in ActOnce(s, who, input).table
    ensures RowIsOwned(ActOnce(s, who, input), s.procs[who].job.slot)
  {
  }

  lemma OwnStepKeepsRow(s: State, who: nat, input: Input, slot: Slot)
    requires Enabled(s, Act(who, input)) && SlotInv(s, slot)
    requires On(s.procs[who], slot) && slot in ActOnce(s, who, input).table
    ensures RowIsOwned(ActOnce(s, who, input), slot)
  {
    assert Fits(s.procs[who]);
    if slot !in s.table {
      InsertOwnsRow(s, who, input);
    } else {
      assert RowIsOwned(s, slot);
      if Holding(s.procs[who].pc) {
        assert HasItsRow(s, who);
        HolderKeepsRow(s, who, input);
      } else {
        OthersLeaveRow(s, who, input, slot);
      }
    }
  }

  lemma StepKeepsRows(sha: Sha, s: State, step: Step, slot: Slot)
    requires Enabled(s, step) && SlotInv(s, slot) && slot in Apply(sha, s, step).table
    ensures RowIsOwned(Apply(sha, s, step), slot)
  {
    match step
    case Act(who, input) =>
      ActFrame(s, who, input);
      if On(s.procs[who], slot) {
        OwnStepKeepsRow(s, who, input, slot);
      } else {
        assert RowAt(Apply(sha, s, step).table, slot) == RowAt(s.table, slot);
        assert RowIsOwned(s, slot);
      }
    case _ =>
      assert RowIsOwned(s, slot);
  }

  lemma HolderHolds(s: State, who: nat, input: Input)
    requires Enabled(s, Act(who, input)) && Holding(s.procs[who].pc) && HasItsRow(s, who)
    requires Holding(ActOnce(s, who, input).procs[who].pc)
    ensures HasItsRow(ActOnce(s, who, input), who)
  {
  }

  lemma NewHolderHolds(s: State, who: nat, input: Input)
    requires Enabled(s, Act(who, input)) && Fits(s.procs[who]) && !Holding(s.procs[who].pc)
    requires Holding(ActOnce(s, who, input).procs[who].pc)
    ensures HasItsRow(ActOnce(s, who, input), who)
  {
  }

  lemma OwnStepKeepsHolding(s: State, who: nat, input: Input, slot: Slot)
    requires Enabled(s, Act(who, input)) && SlotInv(s, slot) && On(s.procs[who], slot)
    requires Holding(ActOnce(s, who, input).procs[who].pc)
    ensures HasItsRow(ActOnce(s, who, input), who)
  {
    assert Fits(s.procs[who]);
    if Holding(s.procs[who].pc) {
      assert HasItsRow(s, who);
      HolderHolds(s, who, input);
    } else {
      NewHolderHolds(s, who, input);
    }
  }

  // Another request's step leaves the row of a request at work alone.
  lemma OtherStepSparesRow(s: State, actor: nat, input: Input, who: nat, slot: Slot)
    requires Enabled(s, Act(actor, input)) && SlotInv(s, slot)
    requires who < |s.procs| && who != actor && Holding(s.procs[who].pc) && On(s.procs[who], slot)
    ensures HasItsRow(ActOnce(s, actor, input), who)
  {
    assert HasItsRow(s, who);
    assert Fits(s.procs[actor]);
    assert Holding(s.procs[actor].pc) && On(s.procs[actor], slot) ==> HasItsRow(s, actor);
    ActFrame(s, actor, input);
    assert RowAt(ActOnce(s, actor, input).table, slot) == RowAt(s.table, slot);
  }

  lemma StepKeepsHolders(sha: Sha, s: State, step: Step, slot: Slot, who: nat)
    requires Enabled(s, step) && SlotInv(s, slot) && SafeFor(s, step, slot) && who < |Apply(sha, s, step).procs|
    requires Holding(Apply(sha, s, step).procs[who].pc) && On(Apply(sha, s, step).procs[who], slot)
    ensures HasItsRow(Apply(sha, s, step), who)
  {
    match step
    case Act(actor, input) =>
      assert Fits(s.procs[actor]);
      ActFrame(s, actor, input);
      if actor == who {
        OwnStepKeepsHolding(s, who, input, slot);
      } else {
        OtherStepSparesRow(s, actor, input, who, slot);
      }
    case _ =>
      assert who < |s.procs| ==> HasItsRow(s, who);
  }

  // Each slot keeps its part on its own.
  lemma StepKeepsSlotInv(sha: Sha, s: State, step: Step, slot: Slot)
    requires Enabled(s, step) && SlotInv(s, slot) && SafeFor(s, step, slot)
    ensures SlotInv(Apply(sha, s, step), slot)
  {
    var s' := Apply(sha, s, step);
    StepKeepsFits(sha, s, step);
    if slot in s'.table {
      StepKeepsRows(sha, s, step, slot);
    }
    forall p: nat | p < |s'.procs| && Holding(s'.procs[p].pc) && On(s'.procs[p], slot) ensures HasItsRow(s', p) {
      StepKeepsHolders(sha, s, step, slot, p);
    }
  }

  lemma {:induction false} SafeRunKeepsSlotInv(sha: Sha, s: State, steps: seq<Step>, slot: Slot)
    requires SlotInv(s, slot) && Runs(sha, s, steps) && SafeRunFor(sha, s, steps, slot)
    ensures SlotInv(After(sha, s, steps), slot)
    decreases steps
  {
    if steps != [] {
      StepKeepsSlotInv(sha, s, steps[0], slot);
      SafeRunKeepsSlotInv(sha, Apply(sha, s, steps[0]), steps[1..], slot);
    }
  }

  lemma SafeInvHoldsOfSlots(s: State, slot: Slot)
    requires SafeInv(s)
    ensures SlotInv(s, slot)
  {
  }

  // The step that answers a request with a replay takes it from the slot's row.
  lemma NewReplay(s: State, who: nat, input: Input)
    requires Enabled(s, Act(who, input)) && SafeInv(s)
    requires var pc := ActOnce(s, who, input).procs[who].pc; pc.Done? && pc.outcome.Replayed?
    ensures ReplayIsFaithful(ActOnce(s, who, input), who)
  {
    assert Fits(s.procs[who]);
    var slot := s.procs[who].job.slot;
    assert slot in s.table && s.table[slot].response.Some?;
    assert RowIsOwned(s, slot);
  }

  lemma StepKeepsReplays(sha: Sha, s: State, step: Step, who: nat)
    requires Enabled(s, step) && SafeInv(s)
    requires who < |Apply(sha, s, step).procs| && Apply(sha, s, step).procs[who].pc.Done?
    requires Apply(sha, s, step).procs[who].pc.outcome.Replayed?
    ensures ReplayIsFaithful(Apply(sha, s, step), who)
  {
    match step
    case Act(actor, input) =>
      assert Fits(s.procs[actor]);
      ActFrame(s, actor, input);
      if actor == who {
        NewReplay(s, who, input);
      } else {
        assert ReplayIsFaithful(s, who);
      }
    case _ =>
      assert who < |s.procs| ==> ReplayIsFaithful(s, who);
  }

  lemma SlotsMakeInv(s: State)
    requires EveryoneFits(s) && EveryReplayIsFaithful(s) && forall slot :: SlotInv(s, slot)
    ensures SafeInv(s)
  {
    forall slot | slot in s.table ensures RowIsOwned(s, slot) {
      assert SlotInv(s, slot);
    }
    forall p | 0 <= p < |s.procs| && Holding(s.procs[p].pc) ensures HasItsRow(s, p) {
      assert Fits(s.procs[p]);
      assert SlotInv(s, s.procs[p].job.slot);
    }
  }

  lemma StepKeepsEveryReplay(sha: Sha, s: State, step: Step)
    requires Enabled(s, step) && SafeInv(s)
    ensures EveryReplayIsFaithful(Apply(sha, s, step))
  {
    var s' := Apply(sha, s, step);
    forall p: nat | p < |s'.procs| && s'.procs[p].pc.Done? && s'.procs[p].pc.outcome.Replayed?
      ensures ReplayIsFaithful(s', p)
    {
      StepKeepsReplays(sha, s, step, p);
    }
  }

  lemma StepKeepsSafeInv(sha: Sha, s: State, step: Step)
    requires Enabled(s, step) && SafeInv(s) && SafeStep(s, step)
    ensures SafeInv(Apply(sha, s, step))
  {
    StepKeepsFits(sha, s, step);
    StepKeepsEveryReplay(sha, s, step);
    forall slot ensures SlotInv(Apply(sha, s, step), slot) {
      SafeInvHoldsOfSlots(s, slot);
      assert SafeFor(s, step, slot);
      StepKeepsSlotInv(sha, s, step, slot);
    }
    SlotsMakeInv(Apply(sha, s, step));
  }

  lemma {:induction false} SafeRunKeepsInv(sha: Sha, s: State, steps: seq<Step>)
    requires SafeInv(s) && Runs(sha, s, steps) && SafeRun(sha, s, steps)
    ensures SafeInv(After(sha, s, steps))
    decreases steps
  {
    if steps != [] {
      StepKeepsSafeInv(sha, s, steps[0]);
      SafeRunKeepsInv(sha, Apply(sha, s, steps[0]), steps[1..]);
    }
  }

  // ------------------------------------------------------------------
  // Faithful replays
  // ------------------------------------------------------------------

  /** In every safe run a replay carries the status the inserting request's handler
      returned, and its body if that is valid UTF-8; and the replayed request was
      made on the same (key, route) with a body of the same hash. */
  lemma ReplaysAreFaithful(sha: Sha, steps: seq<Step>, who: nat)
    requires Runs(sha, Empty(), steps) && SafeRun(sha, Empty(), steps)
    requires var s := After(sha, Empty(), steps);
      who < |s.procs| && s.procs[who].pc.Done? && s.procs[who].pc.outcome.Replayed?
    ensures var s := After(sha, Empty(), steps);
      var o, me := s.procs[who].pc.outcome, s.procs[who];
      && o.from < |s.procs|
      && var first := s.procs[o.from];
      && first.pc.Done? && first.pc.outcome.Fresh? && Cacheable(first.pc.outcome.response)
      && o.status == first.pc.outcome.response.status
      && o.body == BodyText(first.pc.outcome.response.body.value)
      && (first.pc.outcome.response.body.value.Utf8? ==> first.pc.outcome.response.body == Some(Utf8(o.body)))
      && me.job.Keyed? && me.job == first.job
      && me.req.body.Some? && first.req.body.Some? && sha(me.req.body.value) == sha(first.req.body.value)
  {
    SafeRunKeepsInv(sha, Empty(), steps);
    EmptyHasInv();
    RunKeepsInv(sha, Empty(), steps);
    var s := After(sha, Empty(), steps);
    assert ReplayIsFaithful(s, who);
    var from := s.procs[who].pc.outcome.from;
    assert s.procs[who].job == Classify(sha, s.procs[who].req);
    assert s.procs[from].job == Classify(sha, s.procs[from].req);
  }

  // No request at work under a key has outlived its row's time to live.
  ghost predicate Prompt(s: State) {
    forall p :: 0 <= p < |s.procs| && Holding(s.procs[p].pc) ==> s.now <= Deadline(s.procs[p].pc)
  }

  ghost predicate PromptRun(sha: Sha, s: State, steps: seq<Step>)
    requires Runs(sha, s, steps)
    decreases steps
  {
    steps == [] || ((steps[0].Collect? ==> Prompt(s)) && PromptRun(sha, Apply(sha, s, steps[0]), steps[1..]))
  }

  /** A run is safe whenever, at each collection, every handler still at work was
      started less than the time to live ago. */
  lemma {:induction false} PromptRunsAreSafe(sha: Sha, s: State, steps: seq<Step>)
    requires SafeInv(s) && Runs(sha, s, steps) && PromptRun(sha, s, steps)
    ensures SafeRun(sha, s, steps)
    decreases steps
  {
    if steps != [] {
      if steps[0].Collect? {
        forall slot | slot in Expired(s.table, s.now) ensures SafeFor(s, steps[0], slot) {
          assert RowIsOwned(s, slot);
          var owner := s.table[slot].owner;
          assert Holding(s.procs[owner].pc) ==> HasItsRow(s, owner);
        }
      }
      StepKeepsSafeInv(sha, s, steps[0]);
      PromptRunsAreSafe(sha, Apply(sha, s, steps[0]), steps[1..]);
    }
  }

  // ------------------------------------------------------------------
  // Rows whose response was never cached
  // ------------------------------------------------------------------

  // In flight for good: the inserting request has ended without caching a response.
  ghost predicate Blocked(s: State, slot: Slot) {
    && slot in s.table && s.table[slot].response.None?
    && s.table[slot].owner < |s.procs| && s.procs[s.table[slot].owner].pc.Done?
  }

  // Not yet answered, or answered without a run of the handler and without a replay.
  predicate TurnedAway(pc: Pc) {
    match pc
    case LookingUp(_) => true
    case Inserting => true
    case Sleeping(_) => true
    case Done(outcome) => outcome.InFlight? || outcome.Internal? || outcome.Aborted?
    case _ => false
  }

  ghost predicate SparesRow(s: State, step: Step, slot: Slot) {
    step.Collect? ==> slot !in Expired(s.table, s.now)
  }

  // A run that does not collect the row.
  ghost predicate SparingRun(sha: Sha, s: State, steps: seq<Step>, slot: Slot)
    requires Runs(sha, s, steps)
    decreases steps
  {
    steps == [] || (SparesRow(s, steps[0], slot) && SparingRun(sha, Apply(sha, s, steps[0]), steps[1..], slot))
  }

  // No database call of the request fails in these steps, and it is not abandoned.
  ghost predicate GoesWell(steps: seq<Step>, who: nat) {
    forall i :: 0 <= i < |steps| && steps[i].Act? && steps[i].who == who ==>
      !steps[i].input.DbFails? && !steps[i].input.Abort?
  }

  ghost predicate EveryoneTurnedAway(s: State, slot: Slot, ended: set<nat>) {
    forall p: nat :: p < |s.procs| && On(s.procs[p], slot) && p !in ended ==> TurnedAway(s.procs[p].pc)
  }

  ghost function EndedOn(s: State, slot: Slot): set<nat> {
    set p: nat | p < |s.procs| && On(s.procs[p], slot) && s.procs[p].pc.Done?
  }

  lemma BlockedTurnsAway(s: State, slot: Slot)
    requires SlotInv(s, slot) && Blocked(s, slot)
    ensures EveryoneTurnedAway(s, slot, EndedOn(s, slot))
  {
    forall p: nat | p < |s.procs| && On(s.procs[p], slot) && !s.procs[p].pc.Done?
      ensures TurnedAway(s.procs[p].pc)
    {
      assert Fits(s.procs[p]);
      assert Holding(s.procs[p].pc) ==> HasItsRow(s, p);
    }
  }

  /** A request under a key that ends without caching its response, because the
      response cannot be buffered or is not JSON, because storing it fails, or
      because the request is abandoned, leaves such a row behind. */
  lemma EndingUncachedBlocks(sha: Sha, s: State, who: nat, input: Input)
    requires Enabled(s, Act(who, input)) && Fits(s.procs[who]) && Holding(s.procs[who].pc)
    requires SlotInv(s, s.procs[who].job.slot)
    requires Apply(sha, s, Act(who, input)).procs[who].pc.Done?
    requires !(s.procs[who].pc.Finalizing? && input.Go?)
    ensures Blocked(Apply(sha, s, Act(who, input)), s.procs[who].job.slot)
  {
    assert HasItsRow(s, who);
  }

  // A step of a request that was turned away leaves the blocked row as it is, runs
  // no handler and leaves the request turned away.
  lemma ActOnBlockedRow(s: State, who: nat, input: Input, slot: Slot)
    requires Enabled(s, Act(who, input)) && Blocked(s, slot)
    requires On(s.procs[who], slot) && TurnedAway(s.procs[who].pc)
    ensures var s' := ActOnce(s, who, input);
      && s'.table == s.table && s'.log == s.log && TurnedAway(s'.procs[who].pc)
  {
  }

  lemma ActElsewhere(s: State, who: nat, input: Input, slot: Slot)
    requires Enabled(s, Act(who, input)) && Fits(s.procs[who]) && !On(s.procs[who], slot)
    ensures var a := Appended(s, Act(who, input));
      RowAt(ActOnce(s, who, input).table, slot) == RowAt(s.table, slot)
      && (a != [] ==> !Matches(HandlerRunUnder(slot), a[0]))
  {
    ActFrame(s, who, input);
  }

  lemma ActStaysBlocked(sha: Sha, s: State, who: nat, input: Input, slot: Slot, ended: set<nat>)
    requires Enabled(s, Act(who, input)) && EveryoneFits(s)
    requires Blocked(s, slot) && EveryoneTurnedAway(s, slot, ended)
    requires forall p :: p in ended ==> p < |s.procs| && s.procs[p].pc.Done?
    ensures var s' := ActOnce(s, who, input);
      && Blocked(s', slot) && s'.table[slot] == s.table[slot]
      && EveryoneTurnedAway(s', slot, ended)
      && (forall p :: p in ended ==> p < |s'.procs| && s'.procs[p].pc.Done?)
      && Count(s'.log, HandlerRunUnder(slot)) == Count(s.log, HandlerRunUnder(slot))
  {
    assert Fits(s.procs[who]) && who !in ended;
    ActFrame(s, who, input);
    if On(s.procs[who], slot) {
      ActOnBlockedRow(s, who, input, slot);
    } else {
      ActElsewhere(s, who, input, slot);
      StepCounts(sha, s, Act(who, input), HandlerRunUnder(slot));
    }
    assert RowAt(ActOnce(s, who, input).table, slot) == RowAt(s.table, slot);
  }

  lemma StepStaysBlocked(sha: Sha, s: State, step: Step, slot: Slot, ended: set<nat>)
    requires Enabled(s, step) && EveryoneFits(s) && SparesRow(s, step, slot)
    requires Blocked(s, slot) && EveryoneTurnedAway(s, slot, ended)
    requires forall p :: p in ended ==> p < |s.procs| && s.procs[p].pc.Done?
    ensures var s' := Apply(sha, s, step);
      && Blocked(s', slot) && s'.table[slot] == s.table[slot]
      && EveryoneTurnedAway(s', slot, ended)
      && (forall p :: p in ended ==> p < |s'.procs| && s'.procs[p].pc.Done?)
      && Count(s'.log, HandlerRunUnder(slot)) == Count(s.log, HandlerRunUnder(slot))
  {
    match step
    case Act(who, input) => ActStaysBlocked(sha, s, who, input, slot, ended);
    case _ => StepCounts(sha, s, step, HandlerRunUnder(slot));
  }

  lemma {:induction false} RunStaysBlocked(sha: Sha, s: State, steps: seq<Step>, slot: Slot, ended: set<nat>)
    requires Runs(sha, s, steps) && SparingRun(sha, s, steps, slot) && EveryoneFits(s)
    requires Blocked(s, slot) && EveryoneTurnedAway(s, slot, ended)
    requires forall p :: p in ended ==> p < |s.procs| && s.procs[p].pc.Done?
    ensures var s' := After(sha, s, steps);
      && Blocked(s', slot) && s'.table[slot] == s.table[slot]
      && EveryoneTurnedAway(s', slot, ended)
      && Count(s'.log, HandlerRunUnder(slot)) == Count(s.log, HandlerRunUnder(slot))
    decreases steps
  {
    if steps != [] {
      StepStaysBlocked(sha, s, steps[0], slot, ended);
      StepKeepsFits(sha, s, steps[0]);
      RunStaysBlocked(sha, Apply(sha, s, steps[0]), steps[1..], slot, ended);
    }
  }

  // Still waiting for its answer, or answered with the conflict.
  predicate Refused(pc: Pc) {
    TurnedAway(pc) && (pc.Done? ==> pc.outcome.InFlight?)
  }

  // On a blocked row only a failed database call or abandonment ends a request
  // otherwise than in the conflict.
  lemma ActStaysRefused(s: State, who: nat, input: Input, slot: Slot)
    requires Enabled(s, Act(who, input)) && Blocked(s, slot) && On(s.procs[who], slot) && Refused(s.procs[who].pc)
    requires !input.DbFails? && !input.Abort?
    ensures Refused(ActOnce(s, who, input).procs[who].pc)
  {
  }

  // The request waits on the blocked row, or has not come yet.
  ghost predicate WaitsOn(s: State, slot: Slot, who: nat) {
    who < |s.procs| && On(s.procs[who], slot) ==> Refused(s.procs[who].pc)
  }

  lemma StepStaysRefused(sha: Sha, s: State, step: Step, slot: Slot, who: nat)
    requires Enabled(s, step) && EveryoneFits(s) && Blocked(s, slot) && WaitsOn(s, slot, who) && GoesWell([step], who)
    ensures WaitsOn(Apply(sha, s, step), slot, who)
  {
    match step
    case Act(actor, input) =>
      ActFrame(s, actor, input);
      assert [step][0] == step;
      if actor == who && On(s.procs[who], slot) {
        ActStaysRefused(s, who, input, slot);
      }
    case _ =>
  }

  lemma {:induction false} RunStaysRefused(sha: Sha, s: State, steps: seq<Step>, slot: Slot, who: nat, ended: set<nat>)
    requires Runs(sha, s, steps) && SparingRun(sha, s, steps, slot) && EveryoneFits(s)
    requires Blocked(s, slot) && EveryoneTurnedAway(s, slot, ended) && WaitsOn(s, slot, who) && GoesWell(steps, who)
    requires forall p :: p in ended ==> p < |s.procs| && s.procs[p].pc.Done?
    ensures WaitsOn(After(sha, s, steps), slot, who)
    decreases steps
  {
    if steps != [] {
      assert GoesWell([steps[0]], who);
      assert GoesWell(steps[1..], who) by {
        assert forall i :: 0 <= i < |steps| - 1 ==> steps[1..][i] == steps[i + 1];
      }
      StepStaysRefused(sha, s, steps[0], slot, who);
      StepStaysBlocked(sha, s, steps[0], slot, ended);
      StepKeepsFits(sha, s, steps[0]);
      RunStaysRefused(sha, Apply(sha, s, steps[0]), steps[1..], slot, who, ended);
    }
  }

  /** Once the request that inserted a row has ended without caching its response,
      then until the row is collected it stays as it is, the handler does not run
      again under its key, and every other request on it that ends from then on
      ends in a conflict, if its lookups succeed and it is not abandoned, and
      otherwise in a conflict, a server error or abandonment.  Of the run before,
      only premature collections of the slot's own rows matter. */
  lemma UncachedRowBlocks(sha: Sha, before: seq<Step>, after: seq<Step>, slot: Slot, who: nat)
    requires Runs(sha, Empty(), before) && SafeRunFor(sha, Empty(), before, slot)
    requires Blocked(After(sha, Empty(), before), slot)
    requires Runs(sha, After(sha, Empty(), before), after)
    requires SparingRun(sha, After(sha, Empty(), before), after, slot)
    requires var s := After(sha, Empty(), before);
      var s' := After(sha, s, after);
      && who < |s'.procs| && On(s'.procs[who], slot) && s'.procs[who].pc.Done?
      && !(who < |s.procs| && s.procs[who].pc.Done?)
    ensures var s := After(sha, Empty(), before);
      var s' := After(sha, s, after);
      && slot in s'.table && s'.table[slot] == s.table[slot]
      && Count(s'.log, HandlerRunUnder(slot)) == Count(s.log, HandlerRunUnder(slot))
      && var outcome := s'.procs[who].pc.outcome;
      && (outcome.InFlight? || outcome.Internal? || outcome.Aborted?)
      && (GoesWell(after, who) ==> outcome.InFlight?)
  {
    SafeRunKeepsSlotInv(sha, Empty(), before, slot);
    var s := After(sha, Empty(), before);
    BlockedTurnsAway(s, slot);
    RunStaysBlocked(sha, s, after, slot, EndedOn(s, slot));
    var s' := After(sha, s, after);
    assert who !in EndedOn(s, slot);
    assert TurnedAway(s'.procs[who].pc);
    if GoesWell(after, who) {
      assert WaitsOn(s, slot, who);
      RunStaysRefused(sha, s, after, slot, who, EndedOn(s, slot));
    }
  }

  lemma {:induction false} NoCollectionIsSafe(sha: Sha, s: State, steps: seq<Step>)
    requires Runs(sha, s, steps) && forall i :: 0 <= i < |steps| ==> !steps[i].Collect?
    ensures SafeRun(sha, s, steps)
    decreases steps
  {
    if steps != [] {
      NoCollectionIsSafe(sha, Apply(sha, s, steps[0]), steps[1..]);
    }
  }

  lemma {:induction false} SafeRunIsSafeFor(sha: Sha, s: State, steps: seq<Step>, slot: Slot)
    requires Runs(sha, s, steps) && SafeRun(sha, s, steps)
    ensures SafeRunFor(sha, s, steps, slot)
    decreases steps
  {
    if steps != [] {
      assert SafeFor(s, steps[0], slot);
      SafeRunIsSafeFor(sha, Apply(sha, s, steps[0]), steps[1..], slot);
    }
  }

  // A response that is not JSON is not cached.
  function PlainText(text: string): HandlerResponse {
    HandlerResponse(200, None, Some(Utf8(text)))
  }

  // The first request is running its handler.
  lemma FirstRequestRuns(sha: Sha, req: Request, slot: Slot, hash: string) returns (steps: seq<Step>, s: State)
    requires Classify(sha, req) == Keyed(slot, hash)
    ensures Runs(sha, Empty(), steps) && After(sha, Empty(), steps) == s
    ensures forall i :: 0 <= i < |steps| ==> !steps[i].Collect?
    ensures |s.procs| == 1 && s.procs[0].req == req && s.procs[0].job == Keyed(slot, hash) && s.procs[0].pc.Running?
    ensures slot in s.table && s.table[slot].owner == 0 && s.table[slot].response.None?
  {
    steps, s := Then(sha, Empty(), [], Empty(), Arrive(req));
    assert s.procs == [Proc(req, Keyed(slot, hash), LookingUp(false))];
    steps, s := Then(sha, Empty(), steps, s, Act(0, Go));
    assert s.procs[0].pc == Inserting;
    steps, s := Then(sha, Empty(), steps, s, Act(0, Go));
    assert s.procs[0].pc.Reserved?;
    steps, s := Then(sha, Empty(), steps, s, Act(0, Go));
  }

  /** Such rows are there to be met: whatever request with a key is made first, an
      answer that is not JSON leaves its row blocked. */
  lemma BlockedRowIsReachable(sha: Sha, req: Request, slot: Slot, hash: string, text: string)
    returns (steps: seq<Step>, s: State)
    requires Classify(sha, req) == Keyed(slot, hash)
    ensures Runs(sha, Empty(), steps) && SafeRun(sha, Empty(), steps) && SafeRunFor(sha, Empty(), steps, slot)
    ensures After(sha, Empty(), steps) == s && Blocked(s, slot)
    ensures s.procs == [Proc(req, Keyed(slot, hash), Done(Fresh(PlainText(text))))]
  {
    steps, s := FirstRequestRuns(sha, req, slot, hash);
    steps, s := Then(sha, Empty(), steps, s, Act(0, Reply(PlainText(text))));
    NoCollectionIsSafe(sha, Empty(), steps);
    SafeRunIsSafeFor(sha, Empty(), steps, slot);
  }
}
