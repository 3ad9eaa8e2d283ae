/** The outbox worker: an object that delivers one dispatch at a time, cut at its waits. */
module OutboxWorkers {
  import opened Options
  import opened CallRows
  import opened CallDb
  import opened CallSteps
  import opened CallStore
  import opened DispatchOutbox

  /** Another world with the same rows, in which this worker is at the same stage. */
  predicate Agree(w: World, v: World, worker: WorkerId) {
    w.db == v.db && w.At(worker) == v.At(worker)
  }

  /** What a worker does depends on the rows and on its own stage only, and leaves the stages of other
    * workers alone. So each method below makes one step of the whole protocol, whatever the others do. */
  lemma WorkersActLocally(w: World, v: World, act: Action)
    requires WellFormed(w.db) && ByWorker(act) && Agree(w, v, act.worker) && Enabled(w, act)
    ensures Enabled(v, act)
    ensures NextWorld(v, act, After(v, act))
    ensures Agree(After(w, act), After(v, act), act.worker)
    ensures forall other :: other != act.worker ==> After(v, act).At(other) == v.At(other)
  {
    EnabledLocally(w, v, act);
    AfterIsNext(v, act);
    hide NextWorld, WellFormed, Delivered, RowsAfter, DeliveryOf, PcAfter, Enabled;
  }

  lemma EnabledLocally(w: World, v: World, act: Action)
    requires ByWorker(act) && Agree(w, v, act.worker) && Enabled(w, act)
    ensures Enabled(v, act) && RowsAfter(v, act) == RowsAfter(w, act)
    ensures DeliveryOf(v, act) == DeliveryOf(w, act) && PcAfter(v, act) == PcAfter(w, act)
  {
  }

  class OutboxWorker {
    const workerId: WorkerId
    const store: TasksService
    var pc: Pc

    /** The world as this worker sees it. */
    function Seen(): World
      reads this, store
    {
      World(store.Rows(), map[workerId := pc], [], {}, {})
    }

    ghost predicate Ready(act: Action)
      reads this, store
    {
      WellFormed(store.Rows()) && Enabled(Seen(), act) && (ByWorker(act) ==> act.worker == workerId)
    }

    constructor (workerId: WorkerId, store: TasksService)
      ensures this.workerId == workerId && this.store == store && pc == Idle
    {
      this.workerId, this.store, pc := workerId, store, Idle;
    }

    /** Rows whose lease has run out become pending again, whoever holds it. */
    method RecoverExpiredLeases(now: Time, leaseMs: nat)
      requires WellFormed(store.Rows())
      modifies store`outbox
      ensures store.Rows() == After(old(Seen()), RecoverLeases(now, leaseMs)).db
      ensures store.outbox.Keys == old(store.outbox).Keys
      ensures forall a :: a in store.outbox ==>
        var row, row' := old(store.outbox)[a], store.outbox[a];
        && (row' != row <==>
              row.status == RowProcessing && (row.lockedAt.None? || row.lockedAt.value < now - leaseMs))
        && (row' != row ==> row' == OutboxRow(RowPending, row.attempts, None, None))
    {
      hide WellFormed, HasLeft, PcAfter;
      ghost var seen := Seen();
      var rows := store.outbox;
      store.outbox := map a | a in rows ::
        if rows[a].status == RowProcessing && (rows[a].lockedAt.None? || rows[a].lockedAt.value < now - leaseMs)
        then rows[a].(status := RowPending, lockedAt := None, lockedBy := None) else rows[a];
      assert store.outbox == RowsAfter(seen, RecoverLeases(now, leaseMs));
      hide RowsAfter;
    }

    /** `claimed` is false if the row is no longer pending; then nothing has happened. */
    method ClaimRow(row: AttemptId, attemptsRead: nat, now: Time) returns (claimed: bool)
      requires WellFormed(store.Rows()) && pc == Idle && row in store.outbox
      modifies this`pc, store`outbox
      ensures claimed <==> old(Enabled(Seen(), Claim(workerId, row, attemptsRead, now)))
      ensures claimed ==> Agree(Seen(), After(old(Seen()), Claim(workerId, row, attemptsRead, now)), workerId)
      ensures !claimed ==> Seen() == old(Seen())
    {
      if store.outbox[row].status != RowPending {
        return false;
      }
      ghost var seen := Seen();
      var event := store.outbox[row];
      store.outbox := store.outbox[row := OutboxRow(RowProcessing, event.attempts + 1, Some(workerId), Some(now))];
      pc := Busy(row, attemptsRead, Claimed);
      claimed := true;
      hide WellFormed;
    }

    /** The first guard: never dial again what has a job id or is past calling. */
    method Deliver()
      requires Ready(ReadAttempt(workerId))
      modifies this`pc
      ensures Agree(Seen(), After(old(Seen()), ReadAttempt(workerId)), workerId)
    {
      var attempt := store.attempts[pc.row];
      if attempt.providerJobId.Some? || attempt.status != Calling {
        pc := pc.(stage := Finishing(if attempt.providerJobId.Some? then HasJob else HasLeftCalling));
      } else if attempt.dispatchStartedAt.Some? {
        pc := pc.(stage := Ambiguous);
      } else {
        pc := pc.(stage := Guarded);
      }
      hide WellFormed;
    }

    /** The second guard: an earlier delivery got as far as the marker. */
    method Disambiguate()
      requires Ready(ReadEvents(workerId))
      modifies this`pc
      ensures Agree(Seen(), After(old(Seen()), ReadEvents(workerId)), workerId)
    {
      if pc.row in store.witnessed {
        pc := pc.(stage := Finishing(WasWitnessed));
      } else {
        pc := pc.(stage := Burying);
      }
      hide WellFormed;
    }

    /** The marker is committed on its own, and unconditionally. */
    method StartDispatch(now: Time)
      requires Ready(CommitMarker(workerId, now))
      modifies this`pc, store`attempts
      ensures Agree(Seen(), After(old(Seen()), CommitMarker(workerId, now)), workerId)
    {
      store.attempts := store.attempts[pc.row := store.attempts[pc.row].(dispatchStartedAt := Some(now))];
      pc := pc.(stage := Dialling);
      hide WellFormed;
    }

    /** The reply of originate, or its error. */
    method Replied(reply: Reply)
      requires Ready(Originate(workerId, reply))
      modifies this`pc
      ensures Agree(Seen(), After(old(Seen()), Originate(workerId, reply)), workerId)
    {
      match reply
      case Accepted(jobId) => pc := pc.(stage := Placed(jobId));
      case AlreadyActive => pc := pc.(stage := Finishing(AlreadyLive));
      case Refused(nonRetryable, message) => pc := pc.(stage := Failing(nonRetryable, message));
      hide WellFormed;
    }

    /** An error is thrown at any stage. */
    method Throws(nonRetryable: bool, message: string)
      requires Ready(Throw(workerId, nonRetryable, message))
      modifies this`pc
      ensures Agree(Seen(), After(old(Seen()), Throw(workerId, nonRetryable, message)), workerId)
    {
      pc := pc.(stage := Failing(nonRetryable, message));
      hide WellFormed;
    }

    /** The process ends, or the report of a failure fails, at any stage. */
    method Abandons()
      requires Ready(Abandon(workerId))
      modifies this`pc
      ensures Agree(Seen(), After(old(Seen()), Abandon(workerId)), workerId)
    {
      pc := Idle;
      hide WellFormed;
    }

    method RecordJob()
      requires Ready(CommitJob(workerId))
      modifies this`pc, store`attempts, store`outbox
      ensures Agree(Seen(), After(old(Seen()), CommitJob(workerId)), workerId)
    {
      var row := pc.row;
      store.attempts := store.attempts[row := store.attempts[row].(providerJobId := Some(pc.stage.jobId))];
      store.outbox :=
        store.outbox[row := store.outbox[row].(status := RowProcessed, lockedAt := None, lockedBy := None)];
      pc := Idle;
      hide WellFormed;
    }

    method MarkDispatchProcessed()
      requires Ready(CommitProcessed(workerId))
      modifies this`pc, store`outbox
      ensures Agree(Seen(), After(old(Seen()), CommitProcessed(workerId)), workerId)
    {
      var row := pc.row;
      store.outbox :=
        store.outbox[row := store.outbox[row].(status := RowProcessed, lockedAt := None, lockedBy := None)];
      pc := Idle;
      hide WellFormed;
    }

    method DeadLetterDispatch()
      requires Ready(CommitDeadLetter(workerId))
      modifies this`pc, store`outbox
      ensures Agree(Seen(), After(old(Seen()), CommitDeadLetter(workerId)), workerId)
    {
      var row := pc.row;
      store.outbox := store.outbox[row := store.outbox[row].(status := RowFailed, lockedAt := None, lockedBy := None)];
      pc := Idle;
      hide WellFormed;
    }

    /** The attempt and its task fail if they are still calling. */
    method FailCall(row: AttemptId, message: string, now: Time, taskNow: Time)
      requires WellFormed(store.Rows()) && row in store.attempts
      requires store.attempts[row].taskId in store.tasks
      modifies store`attempts, store`tasks
      ensures store.Rows() == DispatchFailed(old(store.Rows()), row, message, now, taskNow)
    {
      ghost var before := store.Rows();
      var attempt := store.attempts[row];
      if attempt.status == Calling {
        store.attempts := store.attempts[row :=
          attempt.(status := Failed, endedAt := Some(now), hangupCause := Some(message))];
      }
      var task := store.tasks[attempt.taskId];
      if task.status == Calling {
        store.tasks := store.tasks[attempt.taskId := task.(status := Failed, endedAt := Some(taskNow))];
      }
      hide WellFormed;
      assert store.attempts == DispatchFailed(before, row, message, now, taskNow).attempts;
      assert store.tasks == DispatchFailed(before, row, message, now, taskNow).tasks;
    }

    /** A failure that is final fails the call, as far as it is still calling. */
    method HandleFailure(now: Time, taskNow: Time, maxAttempts: int)
      requires Ready(CommitFailure(workerId, now, taskNow, maxAttempts))
      modifies this`pc, store`attempts, store`tasks, store`outbox
      ensures Agree(Seen(), After(old(Seen()), CommitFailure(workerId, now, taskNow, maxAttempts)), workerId)
    {
      var row, message := pc.row, pc.stage.message;
      var terminal := pc.stage.nonRetryable || pc.attemptsRead + 1 >= maxAttempts;
      var status := if terminal then RowFailed else RowPending;
      assert store.attempts[row].taskId in store.tasks;
      hide WellFormed, DispatchFailed;
      if terminal {
        FailCall(row, message, now, taskNow);
      }
      store.outbox := store.outbox[row := store.outbox[row].(status := status, lockedAt := None, lockedBy := None)];
      pc := Idle;
      hide WellFormed;
    }
  }
}
