/** The recorder as a class and the recorder as a step system are one machine: a turn of
    the flush task with nobody else at work is a run of its steps, and the only one, and
    each call of the class takes a state of the step system to the next. */
module AuditTurns {
  import opened Wrappers
  import Recorder = AuditRecorder
  import opened AuditRuns

  // ------------------------------------------------------------------
  // The steps of one turn
  // ------------------------------------------------------------------

  function Receives(n: nat): seq<Step> {
    if n == 0 then [] else [TryRecv] + Receives(n - 1)
  }

  // What a turn takes from the queue.
  function TakenBy(s: State): seq<Recorder.AuditEvent> {
    s.queue[..Recorder.Lesser(|s.queue|, 2 * s.config.batchSize)]
  }

  // The turn begins, receives until it finds its batch full or the queue empty, and
  // commits what it has received.
  function TurnSteps(s: State, fault: Option<Recorder.Fault>): seq<Step> {
    var n := |TakenBy(s)|;
    [Tick] + (Receives(n) + ([TryRecv] + (if n == 0 then [] else [Finish(fault)])))
  }

  function AfterTurn(s: State, fault: Option<Recorder.Fault>): State {
    var batch := TakenBy(s);
    var committed := Recorder.Commits(batch, fault);
    s.(queue := s.queue[|batch|..],
       flusher := if !s.open && |s.queue| < 2 * s.config.batchSize then Exited else Waiting,
       log := if committed then s.log + Recorder.FlushedRows(batch) else s.log,
       flushes := if batch == [] then s.flushes else s.flushes + [Flush(batch, committed)],
       rounds := s.rounds + 1)
  }

  lemma {:induction false} RunsConcat(s: State, a: seq<Step>, b: seq<Step>)
    requires Runs(s, a) && Runs(After(s, a), b)
    ensures Runs(s, a + b) && After(s, a + b) == After(After(s, a), b)
    decreases a
  {
    if a == [] {
      assert a + b == b;
    } else {
      RunsConcat(Apply(s, a[0]), a[1..], b);
      assert (a + b)[0] == a[0] && (a + b)[1..] == a[1..] + b;
    }
  }

  lemma {:induction false} ReceivesRun(s: State, n: nat)
    requires s.flusher.Draining? && n <= |s.queue| && |s.flusher.filling| + n <= 2 * s.config.batchSize
    ensures Runs(s, Receives(n))
    ensures After(s, Receives(n)) == s.(queue := s.queue[n..], flusher := Draining(s.flusher.filling + s.queue[..n]))
    decreases n
  {
    if n == 0 {
      assert s.queue[0..] == s.queue && s.flusher.filling + s.queue[..0] == s.flusher.filling;
    } else {
      var next := Apply(s, TryRecv);
      ReceivesRun(next, n - 1);
      assert Receives(n)[0] == TryRecv && Receives(n)[1..] == Receives(n - 1);
      assert s.queue[1..][n - 1..] == s.queue[n..];
      assert (s.flusher.filling + [s.queue[0]]) + s.queue[1..][..n - 1] == s.flusher.filling + s.queue[..n];
    }
  }

  lemma OneStep(s: State, step: Step)
    requires Enabled(s, step)
    ensures Runs(s, [step]) && After(s, [step]) == Apply(s, step)
  {
    assert [step][1..] == [];
    assert Runs(Apply(s, step), []);
  }

  // The receive that ends the turn, and the commit.
  lemma TurnEnds(s: State, fault: Option<Recorder.Fault>)
    requires s.flusher.Draining? && (s.queue == [] || |s.flusher.filling| >= 2 * s.config.batchSize)
    ensures var batch := s.flusher.filling;
      var last := |batch| < 2 * s.config.batchSize && !s.open;
      var committed := Recorder.Commits(batch, fault);
      var steps := [TryRecv] + (if batch == [] then [] else [Finish(fault)]);
      && Runs(s, steps)
      && After(s, steps) == s.(flusher := if last then Exited else Waiting,
                               log := if committed then s.log + Recorder.FlushedRows(batch) else s.log,
                               flushes := if batch == [] then s.flushes else s.flushes + [Flush(batch, committed)])
  {
    var next := Apply(s, TryRecv);
    OneStep(s, TryRecv);
    if s.flusher.filling == [] {
      assert [TryRecv] + [] == [TryRecv];
      assert s.log + Recorder.FlushedRows([]) == s.log;
    } else {
      OneStep(next, Finish(fault));
      RunsConcat(s, [TryRecv], [Finish(fault)]);
    }
  }

  /** A turn of the flush task, undisturbed, is a run of the step system. */
  lemma TurnIsRun(s: State, fault: Option<Recorder.Fault>)
    requires s.flusher.Waiting?
    ensures Runs(s, TurnSteps(s, fault)) && After(s, TurnSteps(s, fault)) == AfterTurn(s, fault)
  {
    var batch := TakenBy(s);
    var n := |batch|;
    var ending := [TryRecv] + (if n == 0 then [] else [Finish(fault)]);
    var begun := Apply(s, Tick);
    OneStep(s, Tick);
    ReceivesRun(begun, n);
    var drained := After(begun, Receives(n));
    assert [] + s.queue[..n] == batch;
    assert n < 2 * s.config.batchSize ==> drained.queue == [];
    TurnEnds(drained, fault);
    RunsConcat(begun, Receives(n), ending);
    RunsConcat(s, [Tick], Receives(n) + ending);
  }

  // A step of the flush task, whose batches all end in the same way.
  predicate IsFlushStep(step: Step, fault: Option<Recorder.Fault>) {
    step == Tick || step == TryRecv || step == Finish(fault)
  }

  /** And it is the only one: of two runs in which the flush task is alone at work, the
      shorter is the beginning of the longer. */
  lemma {:induction false} FlushTaskHasOneWay(s: State, a: seq<Step>, b: seq<Step>, fault: Option<Recorder.Fault>)
    requires Runs(s, a) && Runs(s, b) && |a| <= |b|
    requires forall i :: 0 <= i < |a| ==> IsFlushStep(a[i], fault)
    requires forall i :: 0 <= i < |b| ==> IsFlushStep(b[i], fault)
    ensures a <= b
    decreases a
  {
    if a != [] {
      assert IsFlushStep(a[0], fault) && IsFlushStep(b[0], fault);
      assert a[0] == b[0];
      FlushTaskHasOneWay(Apply(s, a[0]), a[1..], b[1..], fault);
      assert a == [a[0]] + a[1..] && b == [b[0]] + b[1..];
    }
  }

  // ------------------------------------------------------------------
  // The class takes these steps
  // ------------------------------------------------------------------

  ghost predicate Shows(r: Recorder.AuditRecorder, s: State)
    reads r
  {
    && s.config == Config(r.debounced, r.capacity, r.batchSize)
    && s.queue == r.queue && s.open == r.open && s.log == r.log
    && s.overflow.spawned == multiset(r.spawned) && s.overflow.dropped == r.droppedToSyncTotal
  }

  method RecordAsyncIsStep(r: Recorder.AuditRecorder, event: Recorder.AuditEvent, ghost s: State)
    requires r.Valid() && r.open && Shows(r, s)
    modifies r
    ensures r.Valid() && Enabled(s, RecordAsync(event)) && Shows(r, Apply(s, RecordAsync(event)))
  {
    r.RecordAsync(event);
  }

  method RecordSyncIsStep(r: Recorder.AuditRecorder, event: Recorder.AuditEvent, now: string, dbFails: bool,
                          ghost s: State)
    requires r.open && Shows(r, s)
    modifies r
    ensures Enabled(s, RecordSync(event, now, dbFails)) && Shows(r, Apply(s, RecordSync(event, now, dbFails)))
  {
    var _ := r.RecordSync(event, now, dbFails);
  }

  method FlushRoundIsTurn(r: Recorder.AuditRecorder, fault: Option<Recorder.Fault>, ghost s: State) returns (exit: bool)
    requires Shows(r, s) && s.flusher.Waiting?
    modifies r
    ensures Runs(s, TurnSteps(s, fault)) && Shows(r, After(s, TurnSteps(s, fault)))
    ensures exit <==> After(s, TurnSteps(s, fault)).flusher.Exited?
  {
    TurnIsRun(s, fault);
    exit := r.FlushRound(fault);
  }
}
