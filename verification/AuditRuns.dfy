/** The recorder under every interleaving: handlers record, detached inserts run,
    and the flush task takes one event at a time, each a step of its own. */
module AuditRuns {
  import opened Wrappers
  import opened AuditRecorder

  // Between two ticks; filling a batch; committing it, for the last time or not.
  datatype Flusher =
    | Waiting
    | Draining(filling: seq<AuditEvent>)
    | Flushing(full: seq<AuditEvent>, last: bool)
    | Exited

  // A batch that has been handed to the database.
  datatype Flush = Flush(events: seq<AuditEvent>, committed: bool)

  datatype Config = Config(debounced: bool, capacity: nat, batchSize: nat)

  // Events that never reached the queue: waiting in a detached insert, or lost by
  // one that failed; and how many a full queue refused, as counted modulo 2^64
  // and in truth.
  datatype Overflow = Overflow(spawned: multiset<AuditEvent>, lost: multiset<AuditEvent>, dropped: nat, refused: nat)

  // `issued` and `accepted` record the events passed to RecordAsync and those it
  // queued; `flushes` the batches so far and `rounds` the turns begun.
  datatype State = State(
    config: Config, open: bool, queue: seq<AuditEvent>, flusher: Flusher, overflow: Overflow, log: seq<Row>,
    issued: multiset<AuditEvent>, accepted: seq<AuditEvent>, flushes: seq<Flush>, rounds: nat)

  function Start(config: Config): State {
    State(config, true, [], Waiting, Overflow(multiset{}, multiset{}, 0, 0), [], multiset{}, [], [], 0)
  }

  datatype Step =
    | RecordAsync(event: AuditEvent)
    | RecordSync(event: AuditEvent, at: string, dbFails: bool)
    | RunSpawned(event: AuditEvent, at: string, dbFails: bool)
    | Close
    | Tick
    | TryRecv
    | Finish(fault: Option<Fault>)

  predicate Enabled(s: State, step: Step) {
    match step
    case RecordAsync(_) => s.open
    case RecordSync(_, _, _) => s.open
    case RunSpawned(event, _, _) => event in s.overflow.spawned
    case Close => s.open
    case Tick => s.flusher.Waiting?
    case TryRecv => s.flusher.Draining?
    case Finish(_) => s.flusher.Flushing?
  }

  // The batch is as full as it will get this turn.
  function EndTurn(batch: seq<AuditEvent>, last: bool): Flusher {
    if batch != [] then Flushing(batch, last) else if last then Exited else Waiting
  }

  function Refuse(o: Overflow, event: AuditEvent, counted: bool): Overflow {
    var o' := o.(spawned := o.spawned + multiset{event});
    if counted then o'.(dropped := (o.dropped + 1) % U64, refused := o.refused + 1) else o'
  }

  function Apply(s: State, step: Step): State
    requires Enabled(s, step)
  {
    match step
    case RecordAsync(event) =>
      var s' := s.(issued := s.issued + multiset{event});
      if s.config.debounced && |s.queue| < s.config.capacity then
        s'.(queue := s.queue + [event], accepted := s.accepted + [event])
      else
        s'.(overflow := Refuse(s.overflow, event, s.config.debounced))
    case RecordSync(event, at, dbFails) =>
      if dbFails then s else s.(log := s.log + [Row(event, Sync, at)])
    case RunSpawned(event, at, dbFails) =>
      var o := s.overflow.(spawned := s.overflow.spawned - multiset{event});
      if dbFails then s.(overflow := o.(lost := o.lost + multiset{event}))
      else s.(overflow := o, log := s.log + [Row(event, Fallback, at)])
    case Close => s.(open := false)
    case Tick => s.(flusher := Draining([]), rounds := s.rounds + 1)
    case TryRecv =>
      var batch := s.flusher.filling;
      if |batch| >= 2 * s.config.batchSize then s.(flusher := EndTurn(batch, false))
      else if s.queue == [] then s.(flusher := EndTurn(batch, !s.open))
      else s.(flusher := Draining(batch + [s.queue[0]]), queue := s.queue[1..])
    case Finish(fault) =>
      var batch := s.flusher.full;
      var committed := Commits(batch, fault);
      s.(flusher := if s.flusher.last then Exited else Waiting,
         flushes := s.flushes + [Flush(batch, committed)],
         log := if committed then s.log + FlushedRows(batch) else s.log)
  }

  ghost predicate Runs(s: State, steps: seq<Step>)
    decreases steps
  {
    steps == [] || (Enabled(s, steps[0]) && Runs(Apply(s, steps[0]), steps[1..]))
  }

  ghost function After(s: State, steps: seq<Step>): State
    requires Runs(s, steps)
    decreases steps
  {
    if steps == [] then s else After(Apply(s, steps[0]), steps[1..])
  }

  // ------------------------------------------------------------------
  // What the history amounts to
  // ------------------------------------------------------------------

  function InHand(f: Flusher): seq<AuditEvent> {
    match f
    case Draining(batch) => batch
    case Flushing(batch, _) => batch
    case _ => []
  }

  // The events of the batches that ended so (committed or not), in order.
  function EventsOf(flushes: seq<Flush>, committed: bool): seq<AuditEvent> {
    if flushes == [] then []
    else
      var last := flushes[|flushes| - 1];
      EventsOf(flushes[..|flushes| - 1], committed) + if last.committed == committed then last.events else []
  }

  function AllEvents(flushes: seq<Flush>): seq<AuditEvent> {
    if flushes == [] then []
    else AllEvents(flushes[..|flushes| - 1]) + flushes[|flushes| - 1].events
  }

  // The events of the rows inserted that way, in table order.
  function RowsVia(log: seq<Row>, via: Via): seq<AuditEvent> {
    if log == [] then []
    else
      var last := log[|log| - 1];
      RowsVia(log[..|log| - 1], via) + if last.via == via then [last.event] else []
  }

  lemma RowsViaAppends(log: seq<Row>, row: Row, via: Via)
    ensures RowsVia(log + [row], via) == RowsVia(log, via) + if row.via == via then [row.event] else []
  {
    assert (log + [row])[..|log|] == log;
  }

  lemma {:induction false} RowsViaFlush(log: seq<Row>, batch: seq<AuditEvent>, via: Via)
    ensures RowsVia(log + FlushedRows(batch), via) == RowsVia(log, via) + if via == Channel then batch else []
    decreases batch
  {
    if batch == [] {
      assert log + FlushedRows(batch) == log;
    } else {
      var n := |batch| - 1;
      assert log + FlushedRows(batch) == (log + FlushedRows(batch[..n])) + [FlushedRows(batch)[n]];
      RowsViaAppends(log + FlushedRows(batch[..n]), FlushedRows(batch)[n], via);
      RowsViaFlush(log, batch[..n], via);
      assert batch == batch[..n] + [batch[n]];
    }
  }

  lemma FlushAppends(flushes: seq<Flush>, f: Flush, committed: bool)
    ensures EventsOf(flushes + [f], committed)
         == EventsOf(flushes, committed) + if f.committed == committed then f.events else []
    ensures AllEvents(flushes + [f]) == AllEvents(flushes) + f.events
  {
    assert (flushes + [f])[..|flushes|] == flushes;
  }

  lemma {:induction false} FlushesSplit(flushes: seq<Flush>)
    ensures multiset(AllEvents(flushes)) == multiset(EventsOf(flushes, true)) + multiset(EventsOf(flushes, false))
  {
    if flushes != [] {
      FlushesSplit(flushes[..|flushes| - 1]);
    }
  }

  // ------------------------------------------------------------------
  // The invariant of every run
  // ------------------------------------------------------------------

  ghost predicate InOrder(s: State) {
    && AllEvents(s.flushes) + InHand(s.flusher) + s.queue == s.accepted
    && RowsVia(s.log, Channel) == EventsOf(s.flushes, true)
  }

  ghost predicate FallbacksAddUp(s: State) {
    s.issued == multiset(s.accepted) + s.overflow.spawned + s.overflow.lost + multiset(RowsVia(s.log, Fallback))
  }

  ghost predicate Bounded(s: State) {
    && |s.queue| <= s.config.capacity
    && |InHand(s.flusher)| <= 2 * s.config.batchSize
    && (s.flusher.Flushing? ==> s.flusher.full != [])
    && (forall i :: 0 <= i < |s.flushes| ==> 0 < |s.flushes[i].events| <= 2 * s.config.batchSize)
  }

  ghost predicate DropsCounted(s: State) {
    && s.overflow.dropped == s.overflow.refused % U64
    && (s.config.debounced ==>
          s.overflow.refused == |s.overflow.spawned| + |s.overflow.lost| + |RowsVia(s.log, Fallback)|)
  }

  ghost predicate Inv(s: State) {
    InOrder(s) && FallbacksAddUp(s) && Bounded(s) && DropsCounted(s)
  }

  lemma FinishKeepsOrder(s: State, fault: Option<Fault>)
    requires s.flusher.Flushing? && InOrder(s)
    ensures InOrder(Apply(s, Finish(fault)))
  {
    var batch := s.flusher.full;
    var s' := Apply(s, Finish(fault));
    FlushAppends(s.flushes, Flush(batch, Commits(batch, fault)), true);
    RowsViaFlush(s.log, batch, Channel);
    assert RowsVia(s'.log, Channel) == EventsOf(s'.flushes, true);
    assert AllEvents(s'.flushes) + InHand(s'.flusher) == AllEvents(s.flushes) + batch;
  }

  lemma TryRecvKeepsOrder(s: State)
    requires s.flusher.Draining? && InOrder(s)
    ensures InOrder(Apply(s, TryRecv))
  {
    var batch := s.flusher.filling;
    if |batch| < 2 * s.config.batchSize && s.queue != [] {
      assert AllEvents(s.flushes) + (batch + [s.queue[0]]) + s.queue[1..] == AllEvents(s.flushes) + batch + s.queue;
    }
  }

  lemma QueueingKeepsOrder(s: State, event: AuditEvent)
    requires s.open && InOrder(s)
    ensures InOrder(Apply(s, RecordAsync(event)))
  {
    assert AllEvents(s.flushes) + InHand(s.flusher) + (s.queue + [event])
        == AllEvents(s.flushes) + InHand(s.flusher) + s.queue + [event];
  }

  lemma StepKeepsOrder(s: State, step: Step)
    requires Enabled(s, step) && InOrder(s)
    ensures InOrder(Apply(s, step))
  {
    match step
    case RecordAsync(event) => QueueingKeepsOrder(s, event);
    case RecordSync(event, at, _) => RowsViaAppends(s.log, Row(event, Sync, at), Channel);
    case RunSpawned(event, at, _) => RowsViaAppends(s.log, Row(event, Fallback, at), Channel);
    case Finish(fault) => FinishKeepsOrder(s, fault);
    case TryRecv => TryRecvKeepsOrder(s);
    case Close =>
    case Tick =>
  }

  lemma RecordAsyncKeepsFallbacks(s: State, event: AuditEvent)
    requires s.open && FallbacksAddUp(s)
    ensures FallbacksAddUp(Apply(s, RecordAsync(event)))
  {
    assert multiset(s.accepted + [event]) == multiset(s.accepted) + multiset{event};
  }

  lemma SpawnedKeepsFallbacks(s: State, event: AuditEvent, at: string, dbFails: bool)
    requires event in s.overflow.spawned && FallbacksAddUp(s)
    ensures FallbacksAddUp(Apply(s, RunSpawned(event, at, dbFails)))
  {
    var spawned, rows := s.overflow.spawned, RowsVia(s.log, Fallback);
    RowsViaAppends(s.log, Row(event, Fallback, at), Fallback);
    var s' := Apply(s, RunSpawned(event, at, dbFails));
    assert spawned == (spawned - multiset{event}) + multiset{event};
    assert dbFails ==> s'.overflow.lost == s.overflow.lost + multiset{event};
    assert multiset(rows + [event]) == multiset(rows) + multiset{event};
  }

  lemma FlushKeepsFallbacks(s: State, fault: Option<Fault>)
    requires s.flusher.Flushing? && FallbacksAddUp(s)
    ensures FallbacksAddUp(Apply(s, Finish(fault)))
  {
    RowsViaFlush(s.log, s.flusher.full, Fallback);
    assert RowsVia(Apply(s, Finish(fault)).log, Fallback) == RowsVia(s.log, Fallback);
  }

  lemma SyncKeepsFallbacks(s: State, event: AuditEvent, at: string, dbFails: bool)
    requires FallbacksAddUp(s) && s.open
    ensures FallbacksAddUp(Apply(s, RecordSync(event, at, dbFails)))
  {
    RowsViaAppends(s.log, Row(event, Sync, at), Fallback);
    assert RowsVia(Apply(s, RecordSync(event, at, dbFails)).log, Fallback) == RowsVia(s.log, Fallback);
  }

  lemma StepKeepsFallbacks(s: State, step: Step)
    requires Enabled(s, step) && FallbacksAddUp(s)
    ensures FallbacksAddUp(Apply(s, step))
  {
    match step
    case RecordAsync(event) => RecordAsyncKeepsFallbacks(s, event);
    case RecordSync(event, at, dbFails) => SyncKeepsFallbacks(s, event, at, dbFails);
    case RunSpawned(event, at, dbFails) => SpawnedKeepsFallbacks(s, event, at, dbFails);
    case Finish(fault) => FlushKeepsFallbacks(s, fault);
    case _ =>
  }

  lemma CountWraps(n: nat, m: nat)
    requires 0 < m
    ensures (n % m + 1) % m == (n + 1) % m
  {
    var q, r := n / m, n % m;
    assert n == m * q + r;
    if r + 1 < m {
      QuotientIsUnique(n + 1, m, q, r + 1);
      QuotientIsUnique(r + 1, m, 0, r + 1);
    } else {
      assert m * (q + 1) == m * q + m;
      QuotientIsUnique(n + 1, m, q + 1, 0);
      QuotientIsUnique(r + 1, m, 1, 0);
    }
  }

  lemma RecordAsyncKeepsDrops(s: State, event: AuditEvent)
    requires s.open && DropsCounted(s)
    ensures DropsCounted(Apply(s, RecordAsync(event)))
  {
    CountWraps(s.overflow.refused, U64);
  }

  lemma SpawnedKeepsDrops(s: State, event: AuditEvent, at: string, dbFails: bool)
    requires event in s.overflow.spawned && DropsCounted(s)
    ensures DropsCounted(Apply(s, RunSpawned(event, at, dbFails)))
  {
    RowsViaAppends(s.log, Row(event, Fallback, at), Fallback);
  }

  lemma StepKeepsDropsCounted(s: State, step: Step)
    requires Enabled(s, step) && DropsCounted(s)
    ensures DropsCounted(Apply(s, step))
  {
    match step
    case RecordAsync(event) => RecordAsyncKeepsDrops(s, event);
    case RecordSync(event, at, _) => RowsViaAppends(s.log, Row(event, Sync, at), Fallback);
    case RunSpawned(event, at, dbFails) => SpawnedKeepsDrops(s, event, at, dbFails);
    case Finish(_) => RowsViaFlush(s.log, s.flusher.full, Fallback);
    case _ =>
  }

  lemma StepKeepsBounds(s: State, step: Step)
    requires Enabled(s, step) && Bounded(s)
    ensures Bounded(Apply(s, step)) && Apply(s, step).config == s.config
  {
  }

  lemma StepKeepsInv(s: State, step: Step)
    requires Enabled(s, step) && Inv(s)
    ensures Inv(Apply(s, step)) && Apply(s, step).config == s.config
  {
    StepKeepsBounds(s, step);
    StepKeepsOrder(s, step);
    StepKeepsFallbacks(s, step);
    StepKeepsDropsCounted(s, step);
  }

  lemma {:induction false} RunKeepsInv(s: State, steps: seq<Step>)
    requires Inv(s) && Runs(s, steps)
    ensures Inv(After(s, steps)) && After(s, steps).config == s.config
    decreases steps
  {
    if steps != [] {
      StepKeepsInv(s, steps[0]);
      RunKeepsInv(Apply(s, steps[0]), steps[1..]);
    }
  }

  // ------------------------------------------------------------------
  // Conservation and order
  // ------------------------------------------------------------------

  // Reached by some run from the start.
  ghost predicate Reached(config: Config, s: State) {
    exists steps :: Runs(Start(config), steps) && After(Start(config), steps) == s
  }

  lemma ReachedInv(config: Config, s: State)
    requires Reached(config, s)
    ensures Inv(s) && s.config == config
  {
    var steps :| Runs(Start(config), steps) && After(Start(config), steps) == s;
    RunKeepsInv(Start(config), steps);
  }

  /** In every reachable state the events passed to RecordAsync are exactly those
      queued, in the current batch, waiting in a detached insert, committed as rows,
      in a failed batch, or in a failed detached insert. */
  lemma EventsAreConserved(config: Config, s: State)
    requires Reached(config, s)
    ensures s.issued == multiset(s.queue) + multiset(InHand(s.flusher)) + s.overflow.spawned
                     + multiset(RowsVia(s.log, Channel)) + multiset(RowsVia(s.log, Fallback))
                     + multiset(EventsOf(s.flushes, false)) + s.overflow.lost
  {
    ReachedInv(config, s);
    FlushesSplit(s.flushes);
    var hand := AllEvents(s.flushes) + InHand(s.flusher);
    assert multiset(hand) == multiset(AllEvents(s.flushes)) + multiset(InHand(s.flusher));
    assert multiset(hand + s.queue) == multiset(hand) + multiset(s.queue);
  }

  /** The queue never exceeds its capacity, and the drop counter is the number of
      events that found it full, modulo 2^64. */
  lemma QueueIsBounded(config: Config, s: State)
    requires Reached(config, s)
    ensures |s.queue| <= config.capacity
    ensures config.debounced ==>
      s.overflow.dropped == (|s.overflow.spawned| + |s.overflow.lost| + |RowsVia(s.log, Fallback)|) % U64
  {
    ReachedInv(config, s);
  }

  ghost predicate AllCommitted(flushes: seq<Flush>) {
    forall i :: 0 <= i < |flushes| ==> flushes[i].committed
  }

  lemma {:induction false} NoFailures(flushes: seq<Flush>)
    requires AllCommitted(flushes)
    ensures EventsOf(flushes, true) == AllEvents(flushes)
  {
    if flushes != [] {
      NoFailures(flushes[..|flushes| - 1]);
    }
  }

  /** While no batch has failed, the rows flushed from the queue, then the current
      batch, then the queue are the accepted events in the order they were accepted. */
  lemma OrderIsKept(config: Config, s: State)
    requires Reached(config, s) && AllCommitted(s.flushes)
    ensures RowsVia(s.log, Channel) + InHand(s.flusher) + s.queue == s.accepted
  {
    ReachedInv(config, s);
    NoFailures(s.flushes);
  }

  // Consecutive pieces of one sequence.
  function Concat(pieces: seq<seq<AuditEvent>>): seq<AuditEvent> {
    if pieces == [] then [] else Concat(pieces[..|pieces| - 1]) + pieces[|pieces| - 1]
  }

  // Those of the pieces that are marked.
  function Marked(pieces: seq<seq<AuditEvent>>, marks: seq<bool>): seq<seq<AuditEvent>>
    requires |pieces| == |marks|
  {
    if pieces == [] then []
    else
      var n := |pieces| - 1;
      Marked(pieces[..n], marks[..n]) + if marks[n] then [pieces[n]] else []
  }

  lemma {:induction false} FlushesAsPieces(flushes: seq<Flush>, pieces: seq<seq<AuditEvent>>, marks: seq<bool>)
    requires |pieces| == |marks| == |flushes|
    requires forall i :: 0 <= i < |flushes| ==> pieces[i] == flushes[i].events && marks[i] == flushes[i].committed
    ensures Concat(pieces) == AllEvents(flushes) && Concat(Marked(pieces, marks)) == EventsOf(flushes, true)
  {
    if flushes != [] {
      var n := |flushes| - 1;
      FlushesAsPieces(flushes[..n], pieces[..n], marks[..n]);
      var marked := Marked(pieces, marks);
      if marks[n] {
        assert marked[..|marked| - 1] == Marked(pieces[..n], marks[..n]);
      } else {
        assert marked == Marked(pieces[..n], marks[..n]);
      }
    }
  }

  /** With failures, the accepted events still split, in order, into whole batches of
      at most 2 * batchSize, the current batch and the queue, and the flushed rows
      are exactly those batches that committed: never part of one, never reordered. */
  lemma OnlyWholeBatchesAreMissing(config: Config, s: State)
      returns (batches: seq<seq<AuditEvent>>, committed: seq<bool>)
    requires Reached(config, s)
    ensures |batches| == |committed|
    ensures Concat(batches) + InHand(s.flusher) + s.queue == s.accepted
    ensures RowsVia(s.log, Channel) == Concat(Marked(batches, committed))
    ensures forall i :: 0 <= i < |batches| ==> 0 < |batches[i]| <= 2 * config.batchSize
  {
    ReachedInv(config, s);
    batches := seq(|s.flushes|, i requires 0 <= i < |s.flushes| => s.flushes[i].events);
    committed := seq(|s.flushes|, i requires 0 <= i < |s.flushes| => s.flushes[i].committed);
    FlushesAsPieces(s.flushes, batches, committed);
  }

  // ------------------------------------------------------------------
  // How soon the queue drains
  // ------------------------------------------------------------------

  function Taken(s: State): nat {
    |AllEvents(s.flushes)| + |InHand(s.flusher)|
  }

  // n full batches of b events.
  function Full(b: nat, n: nat): nat {
    if n == 0 then 0 else Full(b, n - 1) + b
  }

  lemma TakenAccepted(s: State)
    requires InOrder(s)
    ensures Taken(s) + |s.queue| == |s.accepted|
  {
  }

  lemma StepTakes(s: State, step: Step)
    requires Enabled(s, step)
    ensures Taken(Apply(s, step)) == Taken(s) +
      (if step.TryRecv? && |s.flusher.filling| < 2 * s.config.batchSize && s.queue != [] then 1 else 0)
  {
    if step.Finish? {
      FlushAppends(s.flushes, Flush(s.flusher.full, Commits(s.flusher.full, step.fault)), true);
    }
  }

  // Seen from a state at rest with `taken` events gone, `accepted` accepted and
  // `rounds` turns begun: each turn since has taken a full batch or all there were.
  ghost predicate KeepsPace(s: State, taken: nat, accepted: nat, rounds: nat) {
    && rounds <= s.rounds && accepted <= |s.accepted|
    && var b, n := 2 * s.config.batchSize, s.rounds - rounds;
    if s.flusher.Draining? then
      n > 0 && Lesser(accepted, taken + Full(b, n - 1) + |s.flusher.filling|) <= Taken(s)
    else Lesser(accepted, taken + Full(b, n)) <= Taken(s)
  }

  lemma TryRecvKeepsPace(s: State, taken: nat, accepted: nat, rounds: nat)
    requires s.flusher.Draining? && InOrder(s) && Bounded(s) && KeepsPace(s, taken, accepted, rounds)
    ensures KeepsPace(Apply(s, TryRecv), taken, accepted, rounds)
  {
    StepTakes(s, TryRecv);
    TakenAccepted(s);
    var b, n := 2 * s.config.batchSize, s.rounds - rounds;
    assert Full(b, n) == Full(b, n - 1) + b;
  }

  lemma TickKeepsPace(s: State, taken: nat, accepted: nat, rounds: nat)
    requires Enabled(s, Tick) && KeepsPace(s, taken, accepted, rounds)
    ensures KeepsPace(Apply(s, Tick), taken, accepted, rounds)
  {
    StepTakes(s, Tick);
    assert Apply(s, Tick).rounds - rounds - 1 == s.rounds - rounds;
  }

  lemma OtherStepKeepsPace(s: State, step: Step, taken: nat, accepted: nat, rounds: nat)
    requires Enabled(s, step) && !step.TryRecv? && !step.Tick? && KeepsPace(s, taken, accepted, rounds)
    ensures KeepsPace(Apply(s, step), taken, accepted, rounds)
  {
    StepTakes(s, step);
  }

  lemma StepKeepsPace(s: State, step: Step, taken: nat, accepted: nat, rounds: nat)
    requires Enabled(s, step) && InOrder(s) && Bounded(s) && KeepsPace(s, taken, accepted, rounds)
    ensures KeepsPace(Apply(s, step), taken, accepted, rounds)
  {
    match step
    case TryRecv => TryRecvKeepsPace(s, taken, accepted, rounds);
    case Tick => TickKeepsPace(s, taken, accepted, rounds);
    case _ => OtherStepKeepsPace(s, step, taken, accepted, rounds);
  }

  lemma {:induction false} RunKeepsPace(s: State, steps: seq<Step>, taken: nat, accepted: nat, rounds: nat)
    requires Inv(s) && Runs(s, steps) && KeepsPace(s, taken, accepted, rounds)
    ensures KeepsPace(After(s, steps), taken, accepted, rounds)
    decreases steps
  {
    if steps != [] {
      StepKeepsInv(s, steps[0]);
      StepKeepsPace(s, steps[0], taken, accepted, rounds);
      RunKeepsPace(Apply(s, steps[0]), steps[1..], taken, accepted, rounds);
    }
  }

  // n batches of b fit in q events exactly when n is at most q / b.
  lemma {:induction false} FullFits(b: nat, q: nat, n: nat)
    requires 0 < b
    ensures Full(b, n) <= q <==> n <= q / b
    decreases n
  {
    if n > 0 {
      OneRound(q, b);
      if b <= q {
        FullFits(b, q - b, n - 1);
      }
    }
  }

  lemma PaceReaches(s: State, b: nat, taken: nat, accepted: nat, rounds: nat, p: nat)
    requires b == 2 * s.config.batchSize && 0 < b && KeepsPace(s, taken, accepted, rounds)
    requires !s.flusher.Draining? && rounds + p / b + 1 <= s.rounds && taken + p < accepted
    ensures taken + p < Taken(s)
  {
    FullFits(b, p, s.rounds - rounds);
  }

  /** An event at position p of the queue while the flush task waits is taken by the
      end of turn p / (2 * batchSize) + 1, whatever else is recorded meanwhile. */
  lemma QueuedEventIsTaken(config: Config, b: nat, s: State, after: seq<Step>, s': State, p: nat)
    requires b == 2 * config.batchSize && 0 < b
    requires Reached(config, s) && Runs(s, after) && s' == After(s, after)
    requires s.flusher.Waiting? && p < |s.queue|
    requires !s'.flusher.Draining? && s.rounds + p / b + 1 <= s'.rounds
    ensures Taken(s) + p < Taken(s')
    ensures Taken(s) + p < |s'.accepted| && s'.accepted[Taken(s) + p] == s.queue[p]
  {
    ReachedInv(config, s);
    RunKeepsInv(s, after);
    TakenAccepted(s);
    AtRest(s);
    RunKeepsPace(s, after, Taken(s), |s.accepted|, s.rounds);
    PaceReaches(s', b, Taken(s), |s.accepted|, s.rounds, p);
    AcceptedGrows(s, after);
    QueuedAt(s, p);
  }

  lemma QueuedAt(s: State, p: nat)
    requires InOrder(s) && p < |s.queue|
    ensures Taken(s) + p < |s.accepted| && s.accepted[Taken(s) + p] == s.queue[p]
  {
    var gone := AllEvents(s.flushes) + InHand(s.flusher);
    assert s.accepted == gone + s.queue;
  }

  lemma {:induction false} AcceptedGrows(s: State, steps: seq<Step>)
    requires Runs(s, steps)
    ensures s.accepted <= After(s, steps).accepted
    decreases steps
  {
    if steps != [] {
      AcceptedGrows(Apply(s, steps[0]), steps[1..]);
    }
  }

  // ------------------------------------------------------------------
  // Closing down
  // ------------------------------------------------------------------

  // After n turns, the last of which found the queue empty.
  ghost predicate Ended(s: State, taken: nat, n: nat) {
    && s.queue == [] && n > 0 && Taken(s) == |s.accepted|
    && var b := 2 * s.config.batchSize;
    taken + Full(b, n - 1) <= |s.accepted| < taken + Full(b, n)
  }

  // Seen from a state at rest whose last sender has gone: every turn begun took a
  // full batch, except the one that found the queue empty, which is the last.
  ghost predicate ClosesDown(s: State, taken: nat, accepted: seq<AuditEvent>, rounds: nat) {
    && !s.open && s.accepted == accepted && rounds <= s.rounds
    && var b, n := 2 * s.config.batchSize, s.rounds - rounds;
    match s.flusher
    case Waiting => Taken(s) == taken + Full(b, n)
    case Draining(batch) => n > 0 && Taken(s) == taken + Full(b, n - 1) + |batch|
    case Flushing(_, last) => if last then Ended(s, taken, n) else Taken(s) == taken + Full(b, n)
    case Exited => Ended(s, taken, n)
  }

  lemma TryRecvKeepsClosing(s: State, taken: nat, accepted: seq<AuditEvent>, rounds: nat)
    requires s.flusher.Draining? && InOrder(s) && Bounded(s) && ClosesDown(s, taken, accepted, rounds)
    ensures ClosesDown(Apply(s, TryRecv), taken, accepted, rounds)
  {
    StepTakes(s, TryRecv);
    TakenAccepted(s);
    var b, n := 2 * s.config.batchSize, s.rounds - rounds;
    assert Full(b, n) == Full(b, n - 1) + b;
  }

  lemma StepKeepsClosing(s: State, step: Step, taken: nat, accepted: seq<AuditEvent>, rounds: nat)
    requires Enabled(s, step) && InOrder(s) && Bounded(s) && ClosesDown(s, taken, accepted, rounds)
    ensures ClosesDown(Apply(s, step), taken, accepted, rounds)
  {
    match step
    case TryRecv =>
      TryRecvKeepsClosing(s, taken, accepted, rounds);
    case Tick =>
      StepTakes(s, step);
      assert Apply(s, step).rounds - rounds - 1 == s.rounds - rounds;
    case _ =>
      StepTakes(s, step);
  }

  lemma {:induction false} RunKeepsClosing(s: State, steps: seq<Step>, taken: nat, accepted: seq<AuditEvent>, rounds: nat)
    requires Inv(s) && Runs(s, steps) && ClosesDown(s, taken, accepted, rounds)
    ensures ClosesDown(After(s, steps), taken, accepted, rounds)
    decreases steps
  {
    if steps != [] {
      StepKeepsInv(s, steps[0]);
      StepKeepsClosing(s, steps[0], taken, accepted, rounds);
      RunKeepsClosing(Apply(s, steps[0]), steps[1..], taken, accepted, rounds);
    }
  }

  // Nothing is queued, and every accepted event was in some batch.
  ghost predicate Emptied(s: State, accepted: seq<AuditEvent>) {
    s.queue == [] && AllEvents(s.flushes) == accepted
  }

  lemma AtRest(s: State)
    requires s.flusher.Waiting?
    ensures KeepsPace(s, Taken(s), |s.accepted|, s.rounds)
    ensures !s.open ==> ClosesDown(s, Taken(s), s.accepted, s.rounds)
  {
    assert Full(2 * s.config.batchSize, 0) == 0;
  }

  lemma ClosesAfter(config: Config, s: State, after: seq<Step>, s': State)
    requires Reached(config, s) && Runs(s, after) && s' == After(s, after)
    requires s.flusher.Waiting? && !s.open
    ensures s'.config == config && InOrder(s') && ClosesDown(s', Taken(s), s.accepted, s.rounds)
    ensures Taken(s) + |s.queue| == |s.accepted|
  {
    ReachedInv(config, s);
    RunKeepsInv(s, after);
    TakenAccepted(s);
    AtRest(s);
    RunKeepsClosing(s, after, Taken(s), s.accepted, s.rounds);
  }

  // How the flush task stands, that many turns after it had `q` events to go.
  ghost predicate ClosesWithin(s: State, turns: int, q: nat, b: nat, accepted: seq<AuditEvent>)
    requires 0 < b
  {
    && s.accepted == accepted && turns <= q / b + 1
    && (s.flusher.Waiting? ==> turns < q / b + 1)
    && (s.flusher.Exited? ==> turns == q / b + 1 && Emptied(s, accepted))
    && (!s.flusher.Exited? ==> Enabled(s, Tick) || Enabled(s, TryRecv) || Enabled(s, Finish(None)))
  }

  lemma ClosingBounds(s: State, b: nat, taken: nat, q: nat, accepted: seq<AuditEvent>, rounds: nat)
    requires b == 2 * s.config.batchSize && 0 < b && InOrder(s)
    requires taken + q == |accepted| && ClosesDown(s, taken, accepted, rounds)
    ensures ClosesWithin(s, s.rounds - rounds, q, b, accepted)
  {
    TakenAccepted(s);
    var n := s.rounds - rounds;
    FullFits(b, q, n);
    if n > 0 { FullFits(b, q, n - 1); }
    if s.flusher.Exited? {
      assert AllEvents(s.flushes) + [] + [] == accepted;
      assert AllEvents(s.flushes) == accepted;
    }
  }

  /** Once the last sender is gone with q events queued, the flush task begins at most
      q / (2 * batchSize) + 1 more turns; it is never stuck before it exits, and when
      it has exited the queue is empty, every accepted event was in some batch, and
      exactly that many turns were begun. */
  lemma ClosedQueueEmpties(config: Config, b: nat, s: State, after: seq<Step>, s': State)
    requires b == 2 * config.batchSize && 0 < b
    requires Reached(config, s) && Runs(s, after) && s' == After(s, after)
    requires s.flusher.Waiting? && !s.open
    ensures ClosesWithin(s', s'.rounds - s.rounds, |s.queue|, b, s.accepted)
  {
    ClosesAfter(config, s, after, s');
    ClosingBounds(s', b, Taken(s), |s.queue|, s.accepted, s.rounds);
  }

  /** With a batch size of zero the flush task never takes an event and never exits:
      the bounds above hold exactly for a positive batch size. */
  lemma {:induction false} ZeroBatchNeverDrains(s: State, steps: seq<Step>)
    requires s.config.batchSize == 0 && Runs(s, steps)
    requires s.flushes == [] && (s.flusher.Waiting? || s.flusher == Draining([]))
    ensures Taken(After(s, steps)) == 0 && !After(s, steps).flusher.Exited?
    decreases steps
  {
    if steps != [] {
      ZeroBatchNeverDrains(Apply(s, steps[0]), steps[1..]);
    }
  }
  // A flushed row keeps its event's own time; any other has the time of the insert that
  // made it.
  predicate IsStamped(row: Row, steps: seq<Step>) {
    match row.via
    case Channel => row.occurredAt == row.event.occurredAt
    case Fallback => RunSpawned(row.event, row.occurredAt, false) in steps
    case Sync => RecordSync(row.event, row.occurredAt, false) in steps
  }

  ghost predicate HasFailed(event: AuditEvent, steps: seq<Step>) {
    exists at :: RunSpawned(event, at, true) in steps
  }

  lemma StepStamps(s: State, step: Step)
    requires Enabled(s, step)
    ensures forall row :: row in Apply(s, step).log ==> row in s.log || IsStamped(row, [step])
    ensures forall e :: e in Apply(s, step).overflow.lost ==> e in s.overflow.lost || HasFailed(e, [step])
  {
    match step
    case RunSpawned(event, at, dbFails) =>
      assert step in [step];
    case RecordSync(event, at, dbFails) =>
      assert step in [step];
    case _ =>
  }

  /** Over every run, each new row is stamped so, and a fallback event is lost only if its
      insert failed. */
  lemma {:induction false} RowsAreStamped(s: State, steps: seq<Step>)
    requires Runs(s, steps)
    ensures forall row :: row in After(s, steps).log ==> row in s.log || IsStamped(row, steps)
    ensures forall e :: e in After(s, steps).overflow.lost ==> e in s.overflow.lost || HasFailed(e, steps)
    decreases steps
  {
    if steps != [] {
      StepStamps(s, steps[0]);
      RowsAreStamped(Apply(s, steps[0]), steps[1..]);
      assert forall step :: step in [steps[0]] || step in steps[1..] ==> step in steps;
    }
  }
}
