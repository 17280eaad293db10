/** The audit recorder: a bounded queue filled by request handlers, a fallback for
    events that find it full, and one background task that drains it into the
    audit_log table a batch at a time. */
module AuditRecorder {
  import opened Wrappers

  const U64: nat := 0x1_0000_0000_0000_0000

  datatype AuditOutcome = Ok | Error

  datatype AuditEvent = AuditEvent(occurredAt: string, actor: string, action: string,
                                   target: Option<string>, outcome: AuditOutcome, details: Option<string>)

  // How a row got into the table.  A row inserted by the repository is stamped when
  // it is inserted; a row flushed from the queue keeps its event's own time.
  datatype Via = Channel | Fallback | Sync

  datatype Row = Row(event: AuditEvent, via: Via, occurredAt: string)

  // Ways a batch can fail; each loses the whole batch.
  datatype Fault = BeginFails | RowFails(row: nat) | CommitFails

  function FlushedRows(batch: seq<AuditEvent>): (rows: seq<Row>)
    ensures |rows| == |batch|
    ensures forall i :: 0 <= i < |batch| ==> rows[i] == Row(batch[i], Channel, batch[i].occurredAt)
  {
    seq(|batch|, i requires 0 <= i < |batch| => Row(batch[i], Channel, batch[i].occurredAt))
  }

  predicate Commits(batch: seq<AuditEvent>, fault: Option<Fault>) {
    match fault
    case None => true
    case Some(RowFails(row)) => row >= |batch|
    case Some(_) => false
  }

  function Lesser(a: nat, b: nat): nat {
    if a <= b then a else b
  }

  // ------------------------------------------------------------------
  // The recorder and its flush task, one at a time
  // ------------------------------------------------------------------

  class AuditRecorder {
    const debounced: bool
    const capacity: nat
    const batchSize: nat
    var queue: seq<AuditEvent>
    var open: bool
    var spawned: seq<AuditEvent>
    var droppedToSyncTotal: nat
    var log: seq<Row>

    ghost predicate Valid()
      reads this
    {
      |queue| <= capacity && droppedToSyncTotal < U64 && (!debounced ==> queue == [])
    }

    constructor (debounced: bool, batchSize: nat, capacity: nat)
      requires debounced ==> 0 < capacity
      ensures Valid() && open && queue == [] && spawned == [] && log == [] && droppedToSyncTotal == 0
      ensures this.debounced == debounced && this.batchSize == batchSize && this.capacity == capacity
    {
      this.debounced := debounced;
      this.capacity := capacity;
      this.batchSize := batchSize;
      queue, open, spawned, droppedToSyncTotal, log := [], true, [], 0, [];
    }

    // Queued if there is room; otherwise handed to a detached insert, and counted
    // if the queue was full.
    method RecordAsync(event: AuditEvent)
      requires Valid() && open
      modifies this`queue, this`spawned, this`droppedToSyncTotal
      ensures Valid()
      ensures debounced && |old(queue)| < capacity ==>
                queue == old(queue) + [event] && spawned == old(spawned) && droppedToSyncTotal == old(droppedToSyncTotal)
      ensures !(debounced && |old(queue)| < capacity) ==>
                queue == old(queue) && spawned == old(spawned) + [event]
      ensures !debounced ==> droppedToSyncTotal == old(droppedToSyncTotal)
      ensures debounced && |old(queue)| == capacity ==> droppedToSyncTotal == (old(droppedToSyncTotal) + 1) % U64
    {
      if !debounced {
        spawned := spawned + [event];
      } else if |queue| < capacity {
        queue := queue + [event];
      } else {
        droppedToSyncTotal := (droppedToSyncTotal + 1) % U64;
        spawned := spawned + [event];
      }
    }

    // The new row's id: rows are numbered from one, and none is ever deleted.
    method RecordSync(event: AuditEvent, now: string, dbFails: bool) returns (id: Option<nat>)
      modifies this`log
      ensures id == if dbFails then None else Some(|old(log)| + 1)
      ensures log == if dbFails then old(log) else old(log) + [Row(event, Sync, now)]
    {
      if dbFails { return None; }
      log := log + [Row(event, Sync, now)];
      id := Some(|log|);
    }

    method Stats() returns (total: nat)
      ensures total == droppedToSyncTotal
    {
      total := droppedToSyncTotal;
    }

    // One transaction: every row or none.
    method FlushBatch(batch: seq<AuditEvent>, fault: Option<Fault>)
      modifies this`log
      ensures log == if Commits(batch, fault) then old(log) + FlushedRows(batch) else old(log)
    {
      if batch == [] {
        assert log + FlushedRows(batch) == log;
        return;
      }
      if fault == Some(BeginFails) { return; }
      var tx: seq<Row> := [];
      for i := 0 to |batch|
        invariant tx == FlushedRows(batch)[..i]
        invariant forall j: nat :: j < i ==> fault != Some(RowFails(j))
      {
        if fault == Some(RowFails(i)) { return; }
        tx := tx + [Row(batch[i], Channel, batch[i].occurredAt)];
      }
      if fault == Some(CommitFails) { return; }
      assert Commits(batch, fault) && tx == FlushedRows(batch);
      log := log + tx;
    }

    // One turn of the flush loop with nobody else at work: up to 2 * batchSize
    // events leave the queue in one batch, and the flusher exits on an empty, closed
    // queue.
    method FlushRound(fault: Option<Fault>) returns (exit: bool)
      modifies this`queue, this`log
      ensures var n := Lesser(|old(queue)|, 2 * batchSize);
        && queue == old(queue)[n..]
        && log == (if Commits(old(queue)[..n], fault) then old(log) + FlushedRows(old(queue)[..n]) else old(log))
        && (exit <==> !open && |old(queue)| < 2 * batchSize)
    {
      var batch: seq<AuditEvent> := [];
      exit := false;
      while |batch| < 2 * batchSize
        invariant |batch| <= 2 * batchSize && batch + queue == old(queue) && log == old(log) && !exit
        decreases 2 * batchSize - |batch|
      {
        if queue == [] {
          exit := !open;
          break;
        }
        batch, queue := batch + [queue[0]], queue[1..];
      }
      assert batch == old(queue)[..|batch|] && queue == old(queue)[|batch|..];
      FlushBatch(batch, fault);
    }

    // The flush task from the moment the last sender is gone.
    method DrainClosed(faults: nat -> Option<Fault>) returns (rounds: nat)
      requires !open && 0 < batchSize
      modifies this`queue, this`log
      ensures queue == []
      ensures rounds == |old(queue)| / (2 * batchSize) + 1
      ensures (forall n :: faults(n) == None) ==> log == old(log) + FlushedRows(old(queue))
    {
      rounds := 0;
      var exit := false;
      ghost var taken, b := 0, 2 * batchSize;
      ghost var total := |queue| / b;
      while !exit
        invariant taken <= |old(queue)| && queue == old(queue)[taken..]
        invariant !exit ==> rounds + |queue| / b == total
        invariant exit ==> queue == [] && rounds == total + 1
        invariant (forall n :: faults(n) == None) ==> log == old(log) + FlushedRows(old(queue)[..taken])
        decreases !exit, |queue|
      {
        ghost var n := Lesser(|queue|, b);
        OneRound(|queue|, b);
        FlushedSoFar(old(log), old(queue), taken, n);
        assert queue[..n] == old(queue)[taken..][..n];
        exit := FlushRound(faults(rounds));
        taken := taken + n;
        rounds := rounds + 1;
      }
      assert old(queue)[..taken] == old(queue);
    }
  }

  /** A batch is lost as soon as its begin, its commit or the insert of one of its rows
      fails, and only then. */
  lemma LostExactly(batch: seq<AuditEvent>, fault: Fault)
    ensures Commits(batch, None)
    ensures !Commits(batch, Some(fault)) <==>
              fault == BeginFails || fault == CommitFails || exists i: nat :: i < |batch| && fault == RowFails(i)
  {
    if fault.RowFails? {
      assert fault == RowFails(fault.row);
    }
  }

  lemma FlushedRowsOfConcat(a: seq<AuditEvent>, b: seq<AuditEvent>)
    ensures FlushedRows(a + b) == FlushedRows(a) + FlushedRows(b)
  {
  }

  lemma FlushedSoFar(log: seq<Row>, queue: seq<AuditEvent>, taken: nat, n: nat)
    requires taken + n <= |queue|
    ensures log + FlushedRows(queue[..taken]) + FlushedRows(queue[taken..][..n]) == log + FlushedRows(queue[..taken + n])
  {
    assert queue[..taken] + queue[taken..][..n] == queue[..taken + n];
    FlushedRowsOfConcat(queue[..taken], queue[taken..][..n]);
  }

  lemma Scaled(b: nat, k: int)
    requires 0 < b && 1 <= k
    ensures b <= b * k
  {
  }

  lemma QuotientIsUnique(x: nat, b: nat, q: int, r: int)
    requires 0 < b && x == b * q + r && 0 <= r < b
    ensures x / b == q
  {
    var q', r' := x / b, x % b;
    assert x == b * q' + r';
    assert b * (q - q') == b * q - b * q';
    if q' < q {
      Scaled(b, q - q');
    } else if q < q' {
      assert b * (q' - q) == b * q' - b * q;
      Scaled(b, q' - q);
    }
  }

  lemma OneRound(queued: nat, b: nat)
    requires 0 < b
    ensures queued < b ==> queued / b == 0
    ensures b <= queued ==> (queued - b) / b == queued / b - 1
  {
    if queued < b {
      QuotientIsUnique(queued, b, 0, queued);
    } else {
      var q, r := queued / b, queued % b;
      assert b * (q - 1) == b * q - b;
      QuotientIsUnique(queued - b, b, q - 1, r);
    }
  }
}
