/** What each action of the outbox workers does to the rows and to the worker's stage, field by field. */
module OutboxEffects {
  import opened Options
  import opened CallRows
  import opened CallDb
  import opened CallSteps
  import opened DispatchOutbox
  import opened CommitEffects

  /** The world after an action of this worker: the given stage for it, and everything else but `db` and the log of
    * calls as before. */
  ghost predicate OnlyStage(w: World, worker: WorkerId, pc: Pc, w': World) {
    w'.pcs == w.pcs[worker := pc] && w'.duplicates == w.duplicates && w'.dialled == w.dialled
  }

  lemma Commits(w: World, act: Action, w': World)
    requires WellFormed(w.db) && NextWorld(w, act, w') && !act.Call?
    ensures w'.db == Delivered(w.db, DeliveryOf(w, act)).(outbox := RowsAfter(w, act))
  {
    hide WellFormed, DeliveryOf, RowsAfter, Delivered;
  }

  /** When a worker may act: a claim when it is idle and the row pending; the next read, commit or call of a delivery
    * at its own stage only; and an error or the end of the process at every stage. */
  lemma StagesEnable(w: World, worker: WorkerId, row: AttemptId)
    requires row in w.db.outbox && row in w.db.attempts
    ensures forall n, now :: Enabled(w, Claim(worker, row, n, now)) <==>
      w.At(worker) == Idle && w.db.outbox[row].status == RowPending
    ensures w.At(worker).Busy? && w.At(worker).row == row ==>
      var stage := w.At(worker).stage;
      && (Enabled(w, ReadAttempt(worker)) <==> stage == Claimed)
      && (Enabled(w, ReadEvents(worker)) <==> stage == Ambiguous)
      && (forall now :: Enabled(w, CommitMarker(worker, now)) <==> stage == Guarded)
      && (forall reply :: Enabled(w, Originate(worker, reply)) <==> stage == Dialling)
      && (Enabled(w, CommitJob(worker)) <==> stage.Placed?)
      && (Enabled(w, CommitProcessed(worker)) <==> stage.Finishing?)
      && (Enabled(w, CommitDeadLetter(worker)) <==> stage == Burying)
      && (forall now, taskNow, max :: Enabled(w, CommitFailure(worker, now, taskNow, max)) <==> stage.Failing?)
      && (forall nonRetryable, message :: Enabled(w, Throw(worker, nonRetryable, message)))
      && Enabled(w, Abandon(worker))
    ensures forall now, leaseMs :: Enabled(w, RecoverLeases(now, leaseMs))
    ensures forall step :: Enabled(w, Call(step)) <==> !step.Worker?
  {
  }

  // --------------------------------------------------------------------- leases

  /** The lease of a row that is being processed has run out, or it has none. */
  predicate LeaseIsOver(row: OutboxRow, now: Time, leaseMs: nat) {
    row.status == RowProcessing && (row.lockedAt.None? || row.lockedAt.value < now - leaseMs)
  }

  /** A recovery changes exactly the rows whose lease is over: they are pending again, and nobody's. Nothing else
    * changes. */
  lemma RecoveryTakesOnlyExpired(w: World, now: Time, leaseMs: nat, w': World)
    requires WellFormed(w.db) && NextWorld(w, RecoverLeases(now, leaseMs), w')
    ensures w'.db == w.db.(outbox := w'.db.outbox) && w'.db.outbox.Keys == w.db.outbox.Keys
    ensures forall a :: a in w.db.outbox ==>
      var row, row' := w.db.outbox[a], w'.db.outbox[a];
      && (row' != row <==> LeaseIsOver(row, now, leaseMs))
      && (row' != row ==> row' == OutboxRow(RowPending, row.attempts, None, None))
    ensures w'.pcs == w.pcs && w'.dialled == w.dialled && w'.duplicates == w.duplicates
  {
    Commits(w, RecoverLeases(now, leaseMs), w');
    hide WellFormed, HasLeft, Next;
  }

  /** In every run a lease that is no older than the limit survives a recovery, with its holder. */
  lemma LiveLeaseSurvives(ws: seq<World>, acts: seq<Action>, i: nat, a: AttemptId)
    requires IsWorldRun(ws, acts) && i < |acts| && acts[i].RecoverLeases? && a in ws[i].db.outbox
    requires ws[i].db.outbox[a].status == RowProcessing && ws[i].db.outbox[a].lockedAt.Some?
    requires acts[i].now - ws[i].db.outbox[a].lockedAt.value <= acts[i].leaseMs
    ensures a in ws[i + 1].db.outbox && ws[i + 1].db.outbox[a] == ws[i].db.outbox[a]
  {
    OneAction(ws, acts, i);
    hide IsWorldRun, NextWorld, WellFormed;
    RecoveryTakesOnlyExpired(ws[i], acts[i].now, acts[i].leaseMs, ws[i + 1]);
  }

  /** A claim is of a pending row by an idle worker. It counts one more delivery and gives it the lease. */
  lemma ClaimTakesPending(w: World, worker: WorkerId, row: AttemptId, attemptsRead: nat, now: Time, w': World)
    requires WellFormed(w.db) && NextWorld(w, Claim(worker, row, attemptsRead, now), w')
    ensures w.At(worker) == Idle && row in w.db.outbox && w.db.outbox[row].status == RowPending
    ensures w'.db == w.db.(outbox :=
      w.db.outbox[row := OutboxRow(RowProcessing, w.db.outbox[row].attempts + 1, Some(worker), Some(now))])
    ensures OnlyStage(w, worker, Busy(row, attemptsRead, Claimed), w')
  {
    Commits(w, Claim(worker, row, attemptsRead, now), w');
    hide WellFormed, HasLeft, Next;
  }

  // --------------------------------------------------------------------- reads

  /** The delivery of an attempt that has a job id, or is past calling, is finished; one that has a marker is
    * ambiguous; and only one that has neither goes on to the marker. Reading changes no row. */
  lemma GuardReads(w: World, worker: WorkerId, w': World)
    requires WellFormed(w.db) && NextWorld(w, ReadAttempt(worker), w')
    ensures var pc := w.At(worker);
      && pc.Busy? && pc.stage == Claimed && pc.row in w.db.attempts && w'.db == w.db
      && var a := w.db.attempts[pc.row];
        OnlyStage(w, worker, pc.(stage := if a.providerJobId.Some? then Finishing(HasJob)
                                          else if a.status in {Pending, InCall, Completed, Failed, NoAnswer, Cancelled}
                                          then Finishing(HasLeftCalling)
                                          else if a.dispatchStartedAt.Some? then Ambiguous else Guarded), w')
  {
    Commits(w, ReadAttempt(worker), w');
    hide WellFormed, HasLeft, Next;
  }

  /** An ambiguous delivery is finished if a provider event of the attempt has been stored, and goes to manual
    * review otherwise. */
  lemma ReviewReads(w: World, worker: WorkerId, w': World)
    requires WellFormed(w.db) && NextWorld(w, ReadEvents(worker), w')
    ensures var pc := w.At(worker);
      && pc.Busy? && pc.stage == Ambiguous && w'.db == w.db
      && OnlyStage(w, worker, pc.(stage := if pc.row in w.db.witnessed then Finishing(WasWitnessed) else Burying), w')
  {
    Commits(w, ReadEvents(worker), w');
    hide WellFormed, HasLeft, Next;
  }

  // --------------------------------------------------------------------- the call

  /** The marker is committed on its own, whatever is there. */
  lemma MarkerWrites(w: World, worker: WorkerId, now: Time, w': World)
    requires WellFormed(w.db) && NextWorld(w, CommitMarker(worker, now), w')
    ensures var pc := w.At(worker);
      && pc.Busy? && pc.stage == Guarded && pc.row in w.db.attempts
      && w'.db == w.db.(attempts :=
           w.db.attempts[pc.row := w.db.attempts[pc.row].(dispatchStartedAt := Some(now))])
      && OnlyStage(w, worker, pc.(stage := Dialling), w')
  {
    Commits(w, CommitMarker(worker, now), w');
    hide WellFormed, HasLeft, Next;
  }

  /** Originate is logged, and leads on by its reply: the job id is to be recorded, the delivery is finished as the
    * call is already there, or it has failed. No row is written. */
  lemma CallLeadsOn(w: World, worker: WorkerId, reply: Reply, w': World)
    requires WellFormed(w.db) && NextWorld(w, Originate(worker, reply), w')
    ensures var pc := w.At(worker);
      && pc.Busy? && pc.stage == Dialling && w'.db == w.db && w'.dialled == w.dialled + [pc.row]
      && w'.duplicates == (if reply == AlreadyActive then w.duplicates + {pc.row} else w.duplicates)
      && w'.pcs == w.pcs[worker := pc.(stage :=
           match reply
           case Accepted(jobId) => Placed(jobId)
           case AlreadyActive => Finishing(AlreadyLive)
           case Refused(nonRetryable, message) => Failing(nonRetryable, message))]
  {
    Commits(w, Originate(worker, reply), w');
    hide WellFormed, HasLeft, Next;
  }

  // --------------------------------------------------------------------- the end of a delivery

  /** The row has this status now, and is nobody's. */
  ghost predicate Released(w: World, row: AttemptId, status: RowStatus, w': World) {
    && row in w.db.outbox
    && w'.db.outbox == w.db.outbox[row := OutboxRow(status, w.db.outbox[row].attempts, None, None)]
  }

  /** The three ways to end a delivery that has not failed: a job id and the processed row in one commit, the
    * processed row alone, or the failed row alone. */
  lemma EndWrites(w: World, act: Action, w': World)
    requires WellFormed(w.db) && NextWorld(w, act, w')
    requires act.CommitJob? || act.CommitProcessed? || act.CommitDeadLetter?
    ensures var pc := w.At(act.worker);
      && pc.Busy? && OnlyStage(w, act.worker, Idle, w')
      && w'.db == w.db.(outbox := w'.db.outbox, attempts := w'.db.attempts)
      && Released(w, pc.row, if act.CommitDeadLetter? then RowFailed else RowProcessed, w')
      && (act.CommitProcessed? ==> pc.stage.Finishing? && w'.db.attempts == w.db.attempts)
      && (act.CommitDeadLetter? ==> pc.stage == Burying && w'.db.attempts == w.db.attempts)
      && (act.CommitJob? ==>
            && pc.stage.Placed? && pc.row in w.db.attempts
            && w'.db.attempts ==
                 w.db.attempts[pc.row := w.db.attempts[pc.row].(providerJobId := Some(pc.stage.jobId))])
  {
    Commits(w, act, w');
    hide WellFormed, HasLeft, Next;
  }

  /** A failure that may be retried releases the row for another delivery and writes nothing else. One that may not
    * be, or that was the last of the attempts, fails the row, and the attempt and its task as far as they are
    * still calling, each at its own reading of the clock. */
  lemma FailureWrites(w: World, worker: WorkerId, now: Time, taskNow: Time, maxAttempts: int, w': World)
    requires WellFormed(w.db) && NextWorld(w, CommitFailure(worker, now, taskNow, maxAttempts), w')
    ensures var pc := w.At(worker);
      && pc.Busy? && pc.stage.Failing? && pc.row in w.db.attempts && w.db.attempts[pc.row].taskId in w.db.tasks
      && OnlyStage(w, worker, Idle, w')
      && var final := pc.stage.nonRetryable || pc.attemptsRead + 1 >= maxAttempts;
        && Released(w, pc.row, if final then RowFailed else RowPending, w')
        && (!final ==> w'.db == w.db.(outbox := w'.db.outbox))
        && (final ==>
              && w'.db == w.db.(tasks := w'.db.tasks, attempts := w'.db.attempts, outbox := w'.db.outbox)
              && var a, t := w.db.attempts[pc.row], w.db.TaskOf(pc.row);
                && w'.db.attempts == (if a.status != Calling then w.db.attempts
                                      else w.db.attempts[pc.row := a.(status := Failed, endedAt := Some(now),
                                                                      hangupCause := Some(pc.stage.message))])
                && w'.db.tasks == (if t.status != Calling then w.db.tasks
                                   else w.db.tasks[a.taskId := t.(status := Failed, endedAt := Some(taskNow))]))
  {
    var act := CommitFailure(worker, now, taskNow, maxAttempts);
    Commits(w, act, w');
    DeliveryWrites(w.db, DeliveryOf(w, act), RowsAfter(w, act), w'.db);
    hide Distinct, HasLeft, Next, Delivered;
  }

  /** An error may be thrown, and a process may end, at any stage: no row is written. */
  lemma BreakOffWritesNothing(w: World, act: Action, w': World)
    requires WellFormed(w.db) && NextWorld(w, act, w') && (act.Throw? || act.Abandon?)
    ensures var pc := w.At(act.worker);
      && pc.Busy? && w'.db == w.db
      && OnlyStage(w, act.worker, if act.Throw? then pc.(stage := Failing(act.nonRetryable, act.message)) else Idle, w')
  {
    Commits(w, act, w');
    hide WellFormed, HasLeft, Next;
  }
}
