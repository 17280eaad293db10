/** What holds in every run of the Idempotency-Key middleware, rows collected at any
    time included: how often handlers run, and how long a request polls. */
module IdempotencyCounts {
  import opened Wrappers
  import opened IdempotencyTable
  import opened Idempotency

  // ------------------------------------------------------------------
  // Counting events
  // ------------------------------------------------------------------

  datatype Kind =
    | InsertionOf(slot: Slot)
    | CollectionOf(slot: Slot)
    | HandlerRunUnder(slot: Slot)
    | HandlerRunBy(who: nat)

  predicate Matches(kind: Kind, e: Event) {
    match kind
    case InsertionOf(slot) => e.Inserted? && e.slot == slot
    case CollectionOf(slot) => e.Collected? && slot in e.slots
    case HandlerRunUnder(slot) => e.Started? && e.under == Some(slot)
    case HandlerRunBy(who) => e.Started? && e.who == who
  }

  function Count(log: seq<Event>, kind: Kind): nat {
    if log == [] then 0
    else Count(log[..|log| - 1], kind) + if Matches(kind, log[|log| - 1]) then 1 else 0
  }

  lemma CountAppends(log: seq<Event>, e: Event, kind: Kind)
    ensures Count(log + [e], kind) == Count(log, kind) + if Matches(kind, e) then 1 else 0
  {
    assert (log + [e])[..|log|] == log;
  }

  lemma {:induction false} CountedOccurs(log: seq<Event>, kind: Kind)
    ensures Count(log, kind) == 0 <==> forall e :: e in log ==> !Matches(kind, e)
  {
    if log != [] {
      CountedOccurs(log[..|log| - 1], kind);
      assert log == log[..|log| - 1] + [log[|log| - 1]];
    }
  }

  // ------------------------------------------------------------------
  // Invariants of every run
  // ------------------------------------------------------------------

  // A request's state fits its job.
  predicate Fits(p: Proc) {
    match p.job
    case Bypass => p.pc.Bypassing? || p.pc.BypassRunning? || (p.pc.Done? && (p.pc.outcome.Passed? || p.pc.outcome.Aborted?))
    case Rejected(why) => p.pc == Done(why) && (why.InvalidKey? || why.TooLarge?)
    case Keyed(_, _) =>
      && !p.pc.Bypassing? && !p.pc.BypassRunning?
      && (p.pc.Done? ==> !p.pc.outcome.Passed? && !p.pc.outcome.InvalidKey? && !p.pc.outcome.TooLarge?)
  }

  // Inserted its row and has not answered yet.
  predicate Holding(pc: Pc) {
    pc.Reserved? || pc.Running? || pc.Finalizing?
  }

  predicate RanHandler(pc: Pc) {
    pc.BypassRunning? || pc.Running? || pc.Finalizing? || (pc.Done? && (pc.outcome.Passed? || pc.outcome.Fresh?))
  }

  ghost function Waiting(s: State, slot: Slot): set<nat> {
    set p: nat | p < |s.procs| && s.procs[p].pc.Reserved? && s.procs[p].job.Keyed? && s.procs[p].job.slot == slot
  }

  // Insertions pay for handler runs, and leave one row between collections.
  ghost predicate SlotCounts(s: State, slot: Slot) {
    && Count(s.log, InsertionOf(slot)) == Count(s.log, CollectionOf(slot)) + (if slot in s.table then 1 else 0)
    && Count(s.log, HandlerRunUnder(slot)) + |Waiting(s, slot)| <= Count(s.log, InsertionOf(slot))
  }

  // One request runs the handler at most once, and its state says whether it has.
  ghost predicate RunCounts(s: State, who: nat) {
    && (who >= |s.procs| ==> Count(s.log, HandlerRunBy(who)) == 0)
    && (who < |s.procs| ==>
          var pc := s.procs[who].pc;
          && Count(s.log, HandlerRunBy(who)) <= 1
          && (!(pc.Done? && pc.outcome.Aborted?) ==>
                Count(s.log, HandlerRunBy(who)) == if RanHandler(pc) then 1 else 0))
  }

  // Only a request that inserted its row runs the handler under the key.
  ghost predicate RunnersInserted(s: State) {
    && (forall p: nat, slot :: Started(p, Some(slot)) in s.log ==> Inserted(p, slot) in s.log)
    && InsertersHold(s)
    && HoldersInserted(s)
  }

  ghost predicate InsertersHold(s: State) {
    forall p: nat, slot :: Inserted(p, slot) in s.log ==>
      p < |s.procs| && s.procs[p].job.Keyed? && s.procs[p].job.slot == slot
      && (Holding(s.procs[p].pc) || s.procs[p].pc.Done?)
  }

  ghost predicate HoldersInserted(s: State) {
    forall p: nat :: p < |s.procs| && Holding(s.procs[p].pc) ==>
      s.procs[p].job.Keyed? && Inserted(p, s.procs[p].job.slot) in s.log
  }

  // The time slept before the n-th lookup of the poll loop, and the n-th backoff.
  function Backoff(n: nat): nat {
    if n == 0 then FIRST_BACKOFF else NextBackoff(Backoff(n - 1))
  }

  function SleptBefore(n: nat): nat {
    if n == 0 then 0 else SleptBefore(n - 1) + Backoff(n - 1)
  }

  // About to do lookup number poll.lookups + 1.
  ghost predicate PollIsBounded(poll: Poll, now: nat) {
    && FIRST_BACKOFF <= poll.backoff <= MAX_BACKOFF
    && poll.backoff == Backoff(poll.lookups)
    && poll.started + SleptBefore(poll.lookups + 1) <= poll.wakeAt
    && poll.lookups < 24
  }

  ghost predicate Inv(s: State) {
    && (forall p :: 0 <= p < |s.procs| ==> Fits(s.procs[p]))
    && (forall p :: 0 <= p < |s.procs| && s.procs[p].pc.Sleeping? ==> PollIsBounded(s.procs[p].pc.poll, s.now))
    && (forall slot :: SlotCounts(s, slot))
    && (forall who :: RunCounts(s, who))
    && RunnersInserted(s)
  }

  // ------------------------------------------------------------------
  // Every step keeps them
  // ------------------------------------------------------------------

  lemma EmptyHasInv()
    ensures Inv(Empty())
  {
    forall slot ensures SlotCounts(Empty(), slot) {
      assert Waiting(Empty(), slot) == {};
    }
  }

  lemma BackoffTable()
    ensures Backoff(1) == 20 && Backoff(2) == 40 && Backoff(3) == 80 && Backoff(4) == 160 && Backoff(5) == 250
    ensures SleptBefore(5) == 310
  {
    assert Backoff(0) == 10;
    assert SleptBefore(1) == 10 && SleptBefore(2) == 30 && SleptBefore(3) == 70 && SleptBefore(4) == 150;
  }

  lemma {:induction false} BackoffSaturates(n: nat)
    requires 5 <= n
    ensures Backoff(n) == MAX_BACKOFF && SleptBefore(n) == 310 + MAX_BACKOFF * (n - 5)
  {
    BackoffTable();
    if n > 5 {
      BackoffSaturates(n - 1);
    }
  }

  lemma BackoffInRange(n: nat)
    ensures FIRST_BACKOFF <= Backoff(n) <= MAX_BACKOFF
  {
    BackoffTable();
    if n >= 5 { BackoffSaturates(n); }
  }

  // The lookup that finds the row still in flight and polls on is not the last
  // one allowed: by the 24th, more than five seconds have gone.
  lemma PollingOn(poll: Poll, now: nat)
    requires PollIsBounded(poll, now) && poll.wakeAt <= now
    requires now <= poll.started + IN_FLIGHT_POLL_TIMEOUT
    ensures var backoff := NextBackoff(poll.backoff);
      PollIsBounded(Poll(poll.started, backoff, now + backoff, poll.lookups + 1), now)
  {
    BackoffInRange(poll.lookups + 1);
    BackoffTable();
    if poll.lookups == 23 {
      BackoffSaturates(24);
    }
  }

  function RowAt(t: Table, slot: Slot): Option<Row> {
    if slot in t then Some(t[slot]) else None
  }

  // A request's step changes only that request, and at most its own slot's row.
  lemma ActFrame(s: State, who: nat, input: Input)
    requires Enabled(s, Act(who, input)) && Fits(s.procs[who])
    ensures var s', job := ActOnce(s, who, input), s.procs[who].job;
      && |s'.procs| == |s.procs| && s'.procs[who].job == job && s'.now == s.now
      && (forall p :: 0 <= p < |s.procs| && p != who ==> s'.procs[p] == s.procs[p])
      && (forall slot :: !(job.Keyed? && job.slot == slot) ==> RowAt(s'.table, slot) == RowAt(s.table, slot))
  {
  }

  lemma GotoWaiting(s: State, who: nat, pc: Pc, slot: Slot)
    requires who < |s.procs|
    ensures Waiting(Goto(s, who, pc), slot)
         == if pc.Reserved? && s.procs[who].job.Keyed? && s.procs[who].job.slot == slot
            then Waiting(s, slot) + {who} else Waiting(s, slot) - {who}
  {
  }

  // What a step appends to the log.
  function Appended(s: State, step: Step): seq<Event>
    requires Enabled(s, step)
  {
    match step
    case Collect => [Collected(Expired(s.table, s.now))]
    case Act(who, Go) =>
      (match (s.procs[who].job, s.procs[who].pc)
       case (Bypass, Bypassing) => [Started(who, None)]
       case (Keyed(slot, _), Reserved(_)) => [Started(who, Some(slot))]
       case (Keyed(slot, _), Inserting) => if slot in s.table then [] else [Inserted(who, slot)]
       case (_, _) => [])
    case _ => []
  }

  lemma StepAppends(sha: Sha, s: State, step: Step)
    requires Enabled(s, step)
    ensures Apply(sha, s, step).log == s.log + Appended(s, step)
  {
    assert s.log + [] == s.log;
  }

  lemma StepCounts(sha: Sha, s: State, step: Step, kind: Kind)
    requires Enabled(s, step)
    ensures var a := Appended(s, step);
      Count(Apply(sha, s, step).log, kind)
      == Count(s.log, kind) + if a != [] && Matches(kind, a[0]) then 1 else 0
  {
    StepAppends(sha, s, step);
    var a := Appended(s, step);
    if a != [] {
      assert a == [a[0]];
      CountAppends(s.log, a[0], kind);
    }
  }

  lemma AddOne(a: set<nat>, x: nat)
    ensures |a + {x}| <= |a| + 1
    ensures |a - {x}| == if x in a then |a| - 1 else |a|
  {
    if x in a {
      assert a == (a - {x}) + {x};
      assert a + {x} == a;
    } else {
      assert a - {x} == a;
    }
  }

  lemma StepKeepsTableCount(sha: Sha, s: State, step: Step, slot: Slot)
    requires Enabled(s, step) && SlotCounts(s, slot)
    ensures var s' := Apply(sha, s, step);
      Count(s'.log, InsertionOf(slot)) == Count(s'.log, CollectionOf(slot)) + (if slot in s'.table then 1 else 0)
  {
    StepCounts(sha, s, step, InsertionOf(slot));
    StepCounts(sha, s, step, CollectionOf(slot));
  }

  // Only an insert leads to the state where the handler is about to run, and a
  // handler run under a key leaves it.
  lemma ActLogs(s: State, who: nat, input: Input, slot: Slot)
    requires Enabled(s, Act(who, input))
    ensures var a, p, p' := Appended(s, Act(who, input)), s.procs[who], ActOnce(s, who, input).procs[who];
      && p'.job == p.job
      && (p'.pc.Reserved? && p.job.Keyed? ==> p.pc.Inserting? && a == [Inserted(who, p.job.slot)])
      && (a != [] && Matches(HandlerRunUnder(slot), a[0]) ==>
            p.pc.Reserved? && p.job.Keyed? && p.job.slot == slot && !p'.pc.Reserved?)
  {
  }

  lemma ActKeepsWaiting(s: State, who: nat, input: Input, slot: Slot)
    requires Enabled(s, Act(who, input))
    ensures var s', a := ActOnce(s, who, input), Appended(s, Act(who, input));
      |Waiting(s', slot)| + (if a != [] && Matches(HandlerRunUnder(slot), a[0]) then 1 else 0)
      <= |Waiting(s, slot)| + (if a != [] && Matches(InsertionOf(slot), a[0]) then 1 else 0)
  {
    var s' := ActOnce(s, who, input);
    var next := Goto(s, who, s'.procs[who].pc);
    assert s'.procs == next.procs;
    assert Waiting(s', slot) == Waiting(next, slot);
    GotoWaiting(s, who, s'.procs[who].pc, slot);
    AddOne(Waiting(s, slot), who);
    ActLogs(s, who, input, slot);
  }

  lemma StepKeepsWaiting(sha: Sha, s: State, step: Step, slot: Slot)
    requires Enabled(s, step)
    ensures var s', a := Apply(sha, s, step), Appended(s, step);
      |Waiting(s', slot)| + (if a != [] && Matches(HandlerRunUnder(slot), a[0]) then 1 else 0)
      <= |Waiting(s, slot)| + (if a != [] && Matches(InsertionOf(slot), a[0]) then 1 else 0)
  {
    match step
    case Act(who, input) =>
      ActKeepsWaiting(s, who, input, slot);
    case _ =>
      assert Waiting(Apply(sha, s, step), slot) == Waiting(s, slot);
  }

  lemma StepKeepsSlotCounts(sha: Sha, s: State, step: Step, slot: Slot)
    requires Enabled(s, step) && SlotCounts(s, slot)
    ensures SlotCounts(Apply(sha, s, step), slot)
  {
    StepKeepsTableCount(sha, s, step, slot);
    StepCounts(sha, s, step, InsertionOf(slot));
    StepCounts(sha, s, step, HandlerRunUnder(slot));
    StepKeepsWaiting(sha, s, step, slot);
  }

  lemma OwnStepRuns(s: State, who: nat, input: Input)
    requires Enabled(s, Act(who, input)) && Fits(s.procs[who])
    ensures var a, pc, pc' := Appended(s, Act(who, input)), s.procs[who].pc, ActOnce(s, who, input).procs[who].pc;
      var ran := if a != [] && Matches(HandlerRunBy(who), a[0]) then 1 else 0;
      && (pc' == Done(Aborted) ==> ran == 0)
      && (!(pc'.Done? && pc'.outcome.Aborted?) ==>
            (if RanHandler(pc') then 1 else 0) == (if RanHandler(pc) then 1 else 0) + ran)
  {
  }

  lemma StepKeepsRunCounts(sha: Sha, s: State, step: Step, who: nat)
    requires Enabled(s, step) && RunCounts(s, who)
    requires forall p :: 0 <= p < |s.procs| ==> Fits(s.procs[p])
    ensures RunCounts(Apply(sha, s, step), who)
  {
    StepCounts(sha, s, step, HandlerRunBy(who));
    match step
    case Act(actor, input) =>
      ActFrame(s, actor, input);
      if actor == who {
        OwnStepRuns(s, who, input);
      } else {
        assert Appended(s, step) != [] ==> !Matches(HandlerRunBy(who), Appended(s, step)[0]);
      }
    case _ =>
  }

  // A request's own step, as far as holding its row goes.
  lemma OwnStepHolds(s: State, who: nat, input: Input)
    requires Enabled(s, Act(who, input)) && Fits(s.procs[who])
    ensures var before, pc := s.procs[who], ActOnce(s, who, input).procs[who].pc;
      && (Holding(before.pc) ==> Holding(pc) || pc.Done?)
      && (Holding(pc) ==> before.job.Keyed?
                          && (Holding(before.pc) || Appended(s, Act(who, input)) == [Inserted(who, before.job.slot)]))
      && forall p: nat, slot :: Inserted(p, slot) in Appended(s, Act(who, input)) ==>
           p == who && before.job.Keyed? && before.job.slot == slot && Holding(pc)
  {
  }

  lemma StepKeepsInsertersHold(sha: Sha, s: State, step: Step)
    requires Enabled(s, step) && InsertersHold(s)
    requires forall p :: 0 <= p < |s.procs| ==> Fits(s.procs[p])
    ensures InsertersHold(Apply(sha, s, step))
  {
    StepAppends(sha, s, step);
    match step
    case Act(who, input) =>
      ActFrame(s, who, input);
      OwnStepHolds(s, who, input);
    case _ =>
  }

  lemma StepKeepsHoldersInserted(sha: Sha, s: State, step: Step)
    requires Enabled(s, step) && HoldersInserted(s)
    requires forall p :: 0 <= p < |s.procs| ==> Fits(s.procs[p])
    ensures HoldersInserted(Apply(sha, s, step))
  {
    StepAppends(sha, s, step);
    match step
    case Act(who, input) =>
      ActFrame(s, who, input);
      OwnStepHolds(s, who, input);
      var s' := ActOnce(s, who, input);
      forall p: nat | p < |s'.procs| && Holding(s'.procs[p].pc)
        ensures s'.procs[p].job.Keyed? && Inserted(p, s'.procs[p].job.slot) in s'.log
      {
        assert p != who ==> s'.procs[p] == s.procs[p];
      }
    case _ =>
  }

  lemma StepKeepsRunnersInserted(sha: Sha, s: State, step: Step)
    requires Enabled(s, step) && RunnersInserted(s)
    requires forall p :: 0 <= p < |s.procs| ==> Fits(s.procs[p])
    ensures RunnersInserted(Apply(sha, s, step))
  {
    StepAppends(sha, s, step);
    StepKeepsInsertersHold(sha, s, step);
    StepKeepsHoldersInserted(sha, s, step);
    var log := Apply(sha, s, step).log;
    forall p: nat, slot | Started(p, Some(slot)) in log ensures Inserted(p, slot) in log {
      if Started(p, Some(slot)) !in s.log {
        assert Started(p, Some(slot)) in Appended(s, step);
        assert Holding(s.procs[p].pc);
      }
    }
  }

  lemma StepKeepsFits(sha: Sha, s: State, step: Step)
    requires Enabled(s, step)
    requires forall p :: 0 <= p < |s.procs| ==> Fits(s.procs[p])
    ensures forall p :: 0 <= p < |Apply(sha, s, step).procs| ==> Fits(Apply(sha, s, step).procs[p])
  {
  }

  lemma OwnStepKeepsPoll(s: State, p: nat, input: Input)
    requires Enabled(s, Act(p, input)) && Fits(s.procs[p])
    requires s.procs[p].pc.Sleeping? ==> PollIsBounded(s.procs[p].pc.poll, s.now)
    requires ActOnce(s, p, input).procs[p].pc.Sleeping?
    ensures PollIsBounded(ActOnce(s, p, input).procs[p].pc.poll, s.now)
  {
    var pc := s.procs[p].pc;
    if pc.Sleeping? {
      if s.now <= pc.poll.started + IN_FLIGHT_POLL_TIMEOUT {
        PollingOn(pc.poll, s.now);
      }
    } else {
      assert SleptBefore(1) == FIRST_BACKOFF;
    }
  }

  lemma StepKeepsPolls(sha: Sha, s: State, step: Step, p: nat)
    requires Enabled(s, step) && Inv(s)
    requires p < |Apply(sha, s, step).procs| && Apply(sha, s, step).procs[p].pc.Sleeping?
    ensures PollIsBounded(Apply(sha, s, step).procs[p].pc.poll, Apply(sha, s, step).now)
  {
    match step
    case Act(who, input) =>
      ActFrame(s, who, input);
      if who == p {
        OwnStepKeepsPoll(s, p, input);
      }
    case _ =>
  }

  lemma StepKeepsInv(sha: Sha, s: State, step: Step)
    requires Enabled(s, step) && Inv(s)
    ensures Inv(Apply(sha, s, step))
  {
    var s' := Apply(sha, s, step);
    StepKeepsFits(sha, s, step);
    StepKeepsRunnersInserted(sha, s, step);
    forall slot ensures SlotCounts(s', slot) { StepKeepsSlotCounts(sha, s, step, slot); }
    forall who ensures RunCounts(s', who) { StepKeepsRunCounts(sha, s, step, who); }
    forall p | 0 <= p < |s'.procs| && s'.procs[p].pc.Sleeping?
      ensures PollIsBounded(s'.procs[p].pc.poll, s'.now)
    {
      StepKeepsPolls(sha, s, step, p);
    }
  }

  // A request's job is what its method, key header and body make it.
  ghost predicate Classified(sha: Sha, s: State) {
    forall p :: 0 <= p < |s.procs| ==> s.procs[p].job == Classify(sha, s.procs[p].req)
  }

  lemma {:induction false} RunKeepsInv(sha: Sha, s: State, steps: seq<Step>)
    requires Inv(s) && Classified(sha, s) && Runs(sha, s, steps)
    ensures Inv(After(sha, s, steps)) && Classified(sha, After(sha, s, steps))
    decreases steps
  {
    if steps != [] {
      StepKeepsInv(sha, s, steps[0]);
      RunKeepsInv(sha, Apply(sha, s, steps[0]), steps[1..]);
    }
  }

  // ------------------------------------------------------------------
  // Theorems about every run
  // ------------------------------------------------------------------

  /** Handler runs under a (key, route) never exceed insertions of its row, and
      insertions equal collections plus one if the row is there. */
  lemma HandlerRunsNeedInsertions(sha: Sha, steps: seq<Step>, slot: Slot)
    requires Runs(sha, Empty(), steps)
    ensures var s := After(sha, Empty(), steps);
      && Count(s.log, HandlerRunUnder(slot)) <= Count(s.log, InsertionOf(slot))
      && Count(s.log, InsertionOf(slot)) == Count(s.log, CollectionOf(slot)) + (if slot in s.table then 1 else 0)
  {
    EmptyHasInv();
    RunKeepsInv(sha, Empty(), steps);
    assert SlotCounts(After(sha, Empty(), steps), slot);
  }

  lemma {:induction false} TwoInsertions(log: seq<Event>, p: nat, q: nat, slot: Slot)
    requires Inserted(p, slot) in log && Inserted(q, slot) in log && p != q
    ensures Count(log, InsertionOf(slot)) >= 2
  {
    var front, last := log[..|log| - 1], log[|log| - 1];
    assert log == front + [last];
    if last == Inserted(p, slot) {
      CountedOccurs(front, InsertionOf(slot));
    } else if last == Inserted(q, slot) {
      CountedOccurs(front, InsertionOf(slot));
    } else {
      TwoInsertions(front, p, q, slot);
    }
  }

  /** While a row has never been collected, the handler has run at most once under
      its key, and only in the one request whose insert succeeded. */
  lemma AtMostOneRun(sha: Sha, steps: seq<Step>, slot: Slot)
    requires Runs(sha, Empty(), steps)
    requires Count(After(sha, Empty(), steps).log, CollectionOf(slot)) == 0
    ensures var s := After(sha, Empty(), steps);
      && Count(s.log, HandlerRunUnder(slot)) <= 1
      && forall p: nat, q: nat :: Started(p, Some(slot)) in s.log && Inserted(q, slot) in s.log ==>
           p == q && Inserted(p, slot) in s.log
  {
    HandlerRunsNeedInsertions(sha, steps, slot);
    EmptyHasInv();
    RunKeepsInv(sha, Empty(), steps);
    var s := After(sha, Empty(), steps);
    forall p: nat, q: nat | Started(p, Some(slot)) in s.log && Inserted(q, slot) in s.log
      ensures p == q && Inserted(p, slot) in s.log
    {
      if p != q {
        TwoInsertions(s.log, p, q, slot);
      }
    }
  }

  /** A request runs the handler exactly once if its outcome is a handler's response
      of its own, and not at all if it is a replay, a conflict, a mismatch or an
      error; an abandoned one ran it at most once. */
  lemma OutcomeTellsHandlerRuns(sha: Sha, steps: seq<Step>, who: nat)
    requires Runs(sha, Empty(), steps)
    requires who < |After(sha, Empty(), steps).procs| && After(sha, Empty(), steps).procs[who].pc.Done?
    ensures var s := After(sha, Empty(), steps);
      var runs, outcome := Count(s.log, HandlerRunBy(who)), s.procs[who].pc.outcome;
      && runs <= 1
      && (outcome.Passed? || outcome.Fresh? ==> runs == 1)
      && (!outcome.Passed? && !outcome.Fresh? && !outcome.Aborted? ==> runs == 0)
  {
    EmptyHasInv();
    RunKeepsInv(sha, Empty(), steps);
    assert RunCounts(After(sha, Empty(), steps), who);
  }

  /** A request with no key, or whose method does not mutate, ends with the response
      of exactly one handler run (unless it is abandoned), and none of its steps
      touches the table. */
  lemma NoKeyMeansNoTable(sha: Sha, steps: seq<Step>, who: nat, input: Input)
    requires Runs(sha, Empty(), steps)
    requires var s := After(sha, Empty(), steps);
      && who < |s.procs|
      && (!IsMutation(s.procs[who].req.verb) || s.procs[who].req.key.None?)
    ensures var s := After(sha, Empty(), steps);
      && (Enabled(s, Act(who, input)) ==> Apply(sha, s, Act(who, input)).table == s.table)
      && (s.procs[who].pc.Done? && !s.procs[who].pc.outcome.Aborted? ==>
            s.procs[who].pc.outcome.Passed? && Count(s.log, HandlerRunBy(who)) == 1)
  {
    EmptyHasInv();
    RunKeepsInv(sha, Empty(), steps);
    var s := After(sha, Empty(), steps);
    assert Fits(s.procs[who]);
    assert RunCounts(s, who);
  }

  // A request about to poll, within its bounds.
  lemma PollStep(sha: Sha, s: State, who: nat)
    requires who < |s.procs| && s.procs[who].pc.Sleeping? && Enabled(s, Act(who, Go)) && Fits(s.procs[who])
    requires PollIsBounded(s.procs[who].pc.poll, s.now)
    ensures var poll, next := s.procs[who].pc.poll, Apply(sha, s, Act(who, Go)).procs[who].pc;
      && (poll.lookups == 23 ==> next.Done?)
      && (next == Done(InFlight) && s.procs[who].job.slot in s.table ==> s.now > poll.started + IN_FLIGHT_POLL_TIMEOUT)
  {
    var poll, job := s.procs[who].pc.poll, s.procs[who].job;
    assert Apply(sha, s, Act(who, Go)).procs[who].pc == AfterPoll(s, job.slot, job.hash, poll);
    if poll.lookups == 23 {
      BackoffSaturates(24);
    }
  }

  /** In every run, a polling request backs off 10 to 250 ms at a time and has its
      answer by the 24th lookup; if that answer is a conflict with the row still
      there, more than five seconds have gone. */
  lemma PollingIsBounded(sha: Sha, steps: seq<Step>, who: nat)
    requires Runs(sha, Empty(), steps)
    requires var s := After(sha, Empty(), steps);
      who < |s.procs| && s.procs[who].pc.Sleeping? && Enabled(s, Act(who, Go))
    ensures var s := After(sha, Empty(), steps);
      var poll, next := s.procs[who].pc.poll, Apply(sha, s, Act(who, Go)).procs[who].pc;
      && FIRST_BACKOFF <= poll.backoff <= MAX_BACKOFF
      && poll.lookups + 1 <= 24
      && (poll.lookups + 1 == 24 ==> next.Done?)
      && (next == Done(InFlight) && s.procs[who].job.slot in s.table ==> s.now > poll.started + IN_FLIGHT_POLL_TIMEOUT)
  {
    EmptyHasInv();
    RunKeepsInv(sha, Empty(), steps);
    var s := After(sha, Empty(), steps);
    assert Fits(s.procs[who]) && PollIsBounded(s.procs[who].pc.poll, s.now);
    PollStep(sha, s, who);
  }

  // ------------------------------------------------------------------
  // The poll loop
  // ------------------------------------------------------------------

  // What the n-th lookup returns, and the time since the loop began.
  datatype Reading = Reading(found: Result<Option<StoredResponse>, DbError>, elapsed: nat)

  // The reading leaves the loop going: the row is in flight, and not for too long.
  predicate GoesOn(reading: Reading) {
    reading.found.Success? && reading.found.value.Some? && reading.found.value.value.inFlight && reading.elapsed <= 5000
  }

  // What the client is told after the last reading.
  predicate Answers(outcome: Outcome, reading: Reading, hash: string) {
    match reading.found
    case Failure(_) => outcome == Internal
    case Success(None) => outcome == InFlight
    case Success(Some(stored)) =>
      if stored.inFlight then outcome == InFlight
      else if stored.requestHash != hash then outcome == Mismatch
      else
        && outcome.Replayed? && outcome.body == stored.body && outcome.from == stored.owner
        && outcome.status == if 100 <= stored.status <= 999 then stored.status else 500
  }

  // Every sleep lasts at least as long as was asked for.
  ghost predicate SleepsLastLongEnough(readings: nat -> Reading) {
    forall n: nat :: SleptBefore(n + 1) <= readings(n).elapsed
  }

  lemma LastLookup(readings: nat -> Reading)
    requires SleepsLastLongEnough(readings)
    ensures readings(23).elapsed > IN_FLIGHT_POLL_TIMEOUT
  {
    BackoffSaturates(24);
  }

  // One turn of the loop.
  method PollOnce(reading: Reading, hash: string) returns (answer: Option<Outcome>)
    ensures answer == Settled(reading.found, hash, reading.elapsed)
    ensures answer.None? <==> GoesOn(reading)
    ensures answer.Some? ==> Answers(answer.value, reading, hash)
  {
    match reading.found
    case Success(Some(stored)) =>
      if !stored.inFlight {
        return Some(Answered(stored, hash));
      }
      answer := if reading.elapsed > IN_FLIGHT_POLL_TIMEOUT then Some(InFlight) else None;
    case Success(None) => answer := Some(InFlight);
    case Failure(_) => answer := Some(Internal);
  }

  /** Polls until the row settles the answer, within 24 lookups: every reading but the
      last shows the row in flight, and the last says what the client is told. */
  method PollOrInFlight(readings: nat -> Reading, hash: string) returns (outcome: Outcome, lookups: nat)
    requires SleepsLastLongEnough(readings)
    ensures 1 <= lookups <= 24
    ensures !GoesOn(readings(lookups - 1)) && Answers(outcome, readings(lookups - 1), hash)
    ensures forall n: nat :: n < lookups - 1 ==> GoesOn(readings(n))
  {
    LastLookup(readings);
    var backoff := FIRST_BACKOFF;
    lookups := 0;
    while true
      invariant lookups < 24 && backoff == Backoff(lookups)
      invariant forall n: nat :: n < lookups ==> GoesOn(readings(n))
      decreases 24 - lookups
    {
      var answer := PollOnce(readings(lookups), hash);
      lookups := lookups + 1;
      if answer.Some? {
        return answer.value, lookups;
      }
      backoff := NextBackoff(backoff);
    }
  }
}
