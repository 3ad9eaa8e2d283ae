/** What the other commits write, field by field, on the rows before and after. */
module CommitEffects {
  import opened Options
  import opened CallRows
  import opened CallDb
  import opened CallSteps
  import opened HangupCauses
  import opened EventEffects

  // --------------------------------------------------------------------------- dispatch

  /** A dispatch takes place exactly if the task still has the status that was read, and that is pending, failed
    * or unanswered. It then counts one more attempt, which is calling and has nothing else yet (a web call rings
    * at once), and asks the outbox for a telephone call. Otherwise nothing is written. */
  lemma DispatchWrites(db: Db, t: TaskId, expected: Status, id: AttemptId, channel: Channel, now: Time, startedAt: Time,
                       db': Db)
    requires WellFormed(db) && Next(db, Dispatch(t, expected, id, channel, now, startedAt), db')
    ensures !(t in db.tasks && db.tasks[t].status == expected && expected in {Pending, Failed, NoAnswer}) ==> db' == db
    ensures t in db.tasks && db.tasks[t].status == expected && expected in {Pending, Failed, NoAnswer} ==>
      && id !in db.attempts
      && db' == db.(tasks := db'.tasks, attempts := db'.attempts, outbox := db'.outbox)
      && db'.tasks == db.tasks[t := db.tasks[t].(status := Calling, attemptCount := db.tasks[t].attemptCount + 1)]
      && id in db'.attempts && db'.attempts == db.attempts[id := db'.attempts[id]]
      && var a := db'.attempts[id];
        && a.taskId == t && a.attemptNo == db.tasks[t].attemptCount + 1 && a.channel == channel
        && a.status == Calling && a.startedAt == startedAt
        && a.ringingAt == (if channel == Web then Some(now) else None)
        && a.providerJobId.None? && a.dispatchStartedAt.None? && a.answeredAt.None? && a.endedAt.None?
        && a.duration.None? && a.hangupCause.None? && a.recordingUrl.None? && a.lastEventAt.None?
        && a.lastSnapshotId.None? && a.lastSnapshotAt.None? && a.missingCount == 0
        && db'.outbox == (if channel == Web then db.outbox
                          else db.outbox[id := OutboxRow(RowPending, 0, None, None)])
  {
    hide WellFormed;
  }

  // --------------------------------------------------------- snapshots and the reaper

  /** A call is closed at `at` although its hangup was never seen: by the verdict on the cause it already has, or
    * for the given reason. */
  predicate ClosedUnseen(a: Attempt, answered: bool, at: Time, reason: string, a': Attempt) {
    && Verdict(a.hangupCause, answered, a'.status)
    && Keeps(a.endedAt, at, a'.endedAt)
    && Lasts(a.answeredAt, at, a.duration, a'.duration)
    && a'.hangupCause == (if NormalizeCause(a.hangupCause).Some? then NormalizeCause(a.hangupCause) else Some(reason))
  }

  /** The snapshot is of the attempt's channel, the attempt has not ended and has a job id, and neither this
    * snapshot nor a newer one has been counted for it. */
  predicate IsNews(a: Attempt, s: Snapshot) {
    && a.channel == s.channel && a.status in {Calling, InCall} && a.providerJobId.Some?
    && a.lastSnapshotId != Some(s.id) && (a.lastSnapshotAt.Some? ==> a.lastSnapshotAt.value < s.at)
  }

  /** The attempt is not in the snapshot, although its grace is past. */
  predicate IsMissing(id: AttemptId, a: Attempt, s: Snapshot, graceMs: nat) {
    id !in s.active && s.at - a.startedAt >= graceMs
  }

  /** What a snapshot makes of an attempt. One that is in it, or has not had its time, counts as there; one that is
    * missing is closed at the second miss. */
  predicate Reconciled(id: AttemptId, a: Attempt, s: Snapshot, graceMs: nat, a': Attempt) {
    if !IsNews(a, s) then a' == a else
    && a'.lastSnapshotId == Some(s.id) && a'.lastSnapshotAt == Some(s.at)
    && a'.missingCount == (if IsMissing(id, a, s, graceMs) then a.missingCount + 1 else 0)
    && (if IsMissing(id, a, s, graceMs) && a.missingCount >= 1
        then
          && ClosedUnseen(a, a.answeredAt.Some?, s.at, "EVENT_LOSS_RECONCILED", a')
          && a' == a.(status := a'.status, endedAt := a'.endedAt, duration := a'.duration,
                      hangupCause := a'.hangupCause, lastSnapshotId := a'.lastSnapshotId,
                      lastSnapshotAt := a'.lastSnapshotAt, missingCount := a'.missingCount)
        else a' == a.(lastSnapshotId := a'.lastSnapshotId, lastSnapshotAt := a'.lastSnapshotAt,
                      missingCount := a'.missingCount))
  }

  /** The attempt has been in a call since its answer, or calling since its start, for longer than allowed. */
  predicate Overdue(a: Attempt, now: Time, timeouts: Timeouts) {
    || (a.status == Calling && now - a.startedAt > timeouts.callingMs)
    || (a.status == InCall && a.answeredAt.Some? && now - a.answeredAt.value > timeouts.inCallMs)
    || (a.status == InCall && a.answeredAt.None? && now - a.startedAt > timeouts.inCallMs)
  }

  predicate Reaped(a: Attempt, now: Time, timeouts: Timeouts, a': Attempt) {
    if !Overdue(a, now, timeouts) then a' == a else
    && ClosedUnseen(a, a.answeredAt.Some? || a.status == InCall, now, "STALE_CALL_REAPED", a')
    && a' == a.(status := a'.status, endedAt := a'.endedAt, duration := a'.duration, hangupCause := a'.hangupCause)
  }

  /** The latest attempt of a task that has not ended is closed, and the task with it. */
  predicate ClosedWith(t: Task, at: Time, a': Attempt, t': Task) {
    && t'.status == a'.status && Keeps(t.endedAt, at, t'.endedAt) && Lasts(t.calledAt, at, t.duration, t'.duration)
    && t' == t.(status := t'.status, endedAt := t'.endedAt, duration := t'.duration)
  }

  predicate EndsTask(db: Db, db': Db, a: AttemptId)
    requires WellFormed(db) && a in db.attempts && a in db'.attempts
  {
    && !Ended(db.attempts[a].status) && Ended(db'.attempts[a].status)
    && db.TaskOf(a).attemptCount == db.attempts[a].attemptNo && !Ended(db.TaskOf(a).status)
  }

  lemma SnapshotReconciles(id: AttemptId, a: Attempt, s: Snapshot, graceMs: nat)
    ensures Reconciled(id, a, s, graceMs, SnapshotAttempt(id, a, s, graceMs))
  {
    VerdictOfNormalForm(a.hangupCause, a.answeredAt.Some?);
    Duration(a.answeredAt, s.at, a.duration);
    hide NormalizeCause, Verdict, DurationSeconds, Lasts, ClosingStatus;
  }

  lemma ReaperReaps(a: Attempt, now: Time, timeouts: Timeouts)
    ensures Reaped(a, now, timeouts, ReapAttempt(a, now, timeouts))
  {
    VerdictOfNormalForm(a.hangupCause, a.answeredAt.Some? || a.status == InCall);
    Duration(a.answeredAt, now, a.duration);
    hide NormalizeCause, Verdict, DurationSeconds, Lasts, ClosingStatus;
  }

  /** A snapshot writes every attempt as that says, closes exactly the tasks whose latest attempt it ends, and
    * writes nothing else. */
  lemma SnapshotWrites(db: Db, s: Snapshot, graceMs: nat, db': Db)
    requires WellFormed(db) && Next(db, TakeSnapshot(s, graceMs), db')
    ensures db'.attempts.Keys == db.attempts.Keys && db' == db.(tasks := db'.tasks, attempts := db'.attempts)
    ensures forall a :: a in db.attempts ==> Reconciled(a, db.attempts[a], s, graceMs, db'.attempts[a])
    ensures TasksClosed(db, s.at, db')
  {
    forall a | a in db.attempts
      ensures Reconciled(a, db.attempts[a], s, graceMs, db'.attempts[a])
    {
      SnapshotReconciles(a, db.attempts[a], s, graceMs);
      hide SnapshotAttempt, Reconciled, WellFormed, TasksFollow;
    }
    ClosesTasks(db, TakeSnapshot(s, graceMs), db');
    hide SnapshotAttempts, Reconciled, TasksClosed, WellFormed, TasksFollow;
  }

  /** The same for a tick of the reaper. */
  lemma TickWrites(db: Db, now: Time, timeouts: Timeouts, db': Db)
    requires WellFormed(db) && Next(db, Reap(now, timeouts), db')
    ensures db'.attempts.Keys == db.attempts.Keys && db' == db.(tasks := db'.tasks, attempts := db'.attempts)
    ensures forall a :: a in db.attempts ==> Reaped(db.attempts[a], now, timeouts, db'.attempts[a])
    ensures TasksClosed(db, now, db')
  {
    forall a | a in db.attempts
      ensures Reaped(db.attempts[a], now, timeouts, db'.attempts[a])
    {
      ReaperReaps(db.attempts[a], now, timeouts);
      hide ReapAttempt, Reaped, WellFormed, TasksFollow;
    }
    ClosesTasks(db, Reap(now, timeouts), db');
    hide ReapAttempts, Reaped, TasksClosed, WellFormed, TasksFollow;
  }

  ghost predicate TasksClosed(db: Db, at: Time, db': Db)
    requires WellFormed(db) && db'.attempts.Keys == db.attempts.Keys
  {
    && db'.tasks.Keys == db.tasks.Keys
    && (forall a :: a in db.attempts && EndsTask(db, db', a) ==>
          ClosedWith(db.TaskOf(a), at, db'.attempts[a], db'.tasks[db.attempts[a].taskId]))
    && (forall t :: t in db.tasks && db'.tasks[t] != db.tasks[t] ==>
          exists a :: a in db.attempts && db.attempts[a].taskId == t && EndsTask(db, db', a))
  }

  lemma ClosesTasks(db: Db, step: Step, db': Db)
    requires WellFormed(db) && Next(db, step, db') && Closes(step) && db'.attempts.Keys == db.attempts.Keys
    ensures TasksClosed(db, ClosesAt(step), db')
  {
    KeepsTasks(db, step, db');
    hide Next, ClosedWith, Closes, ClosesAt, Distinct, EndsTask;
    forall a | a in db.attempts && EndsTask(db, db', a)
      ensures ClosedWith(db.TaskOf(a), ClosesAt(step), db'.attempts[a], db'.tasks[db.attempts[a].taskId])
    {
      ClosesLatest(db, step, db', a);
    }
    hide Counted;
    forall t | t in db.tasks && db'.tasks[t] != db.tasks[t]
      ensures exists a :: a in db.attempts && db.attempts[a].taskId == t && EndsTask(db, db', a)
    {
      var a := ChangedIsEnded(db, step, db', t);
    }
  }

  lemma KeepsTasks(db: Db, step: Step, db': Db)
    requires WellFormed(db) && Next(db, step, db') && Closes(step)
    ensures db'.tasks.Keys == db.tasks.Keys
  {
    hide WellFormed, SnapshotAttempts, ReapAttempts, Decides, CloseTask;
  }

  lemma ChangedIsEnded(db: Db, step: Step, db': Db, t: TaskId) returns (a: AttemptId)
    requires WellFormed(db) && Next(db, step, db') && Closes(step) && db'.attempts.Keys == db.attempts.Keys
    requires t in db.tasks && t in db'.tasks && db'.tasks[t] != db.tasks[t]
    ensures a in db.attempts && db.attempts[a].taskId == t && EndsTask(db, db', a)
  {
    var decider := TaskCloses(db, step, db', t);
    hide Next, CloseTask, Closes, ClosesAt, Distinct, EndsTask;
    a := decider.value;
    DecidesIsEndsTask(db, db', a);
  }

  lemma DecidesIsEndsTask(db: Db, db': Db, a: AttemptId)
    requires WellFormed(db) && a in db.attempts && a in db'.attempts
    ensures Decides(db, db'.attempts, a) <==> EndsTask(db, db', a)
  {
    hide Distinct;
  }

  lemma ClosesLatest(db: Db, step: Step, db': Db, a: AttemptId)
    requires WellFormed(db) && Next(db, step, db') && Closes(step) && db'.attempts.Keys == db.attempts.Keys
    requires a in db.attempts && EndsTask(db, db', a) && db.attempts[a].taskId in db'.tasks
    ensures ClosedWith(db.TaskOf(a), ClosesAt(step), db'.attempts[a], db'.tasks[db.attempts[a].taskId])
  {
    DecidesIsEndsTask(db, db', a);
    var decider := TaskCloses(db, step, db', db.attempts[a].taskId);
    Duration(db.TaskOf(a).calledAt, ClosesAt(step), db.TaskOf(a).duration);
    DecidesIsEndsTask(db, db', decider.value);
    assert decider.value == a;
    hide Next, Decides, DurationSeconds, Lasts, ClosesAt, Closes, Counted;
  }

  // ------------------------------------------------------------- status updates and local hangups

  /** The transitions a status update may make. */
  predicate MayBecome(s: Status, s': Status) {
    (s, s') in {
      (Pending, Calling), (Pending, Cancelled), (Pending, Failed),
      (Calling, InCall), (Calling, NoAnswer), (Calling, Failed), (Calling, Cancelled),
      (InCall, Completed), (InCall, Failed), (InCall, Cancelled),
      (Failed, Calling), (NoAnswer, Calling)
    }
  }

  /** The rows of a status update: the new status; the end if it is final, with a duration from the answer that
    * was read; and the answer time of a call that begins. */
  predicate TaskUpdated(t: Task, read: StatusRead, next: Status, now: Time, t': Task) {
    && t'.status == next
    && t'.calledAt == (if next == InCall && read.calledAt.None? then Some(now) else t.calledAt)
    && t'.endedAt == (if Ended(next) then Some(now) else t.endedAt)
    && (if Ended(next) then Lasts(read.calledAt, now, t.duration, t'.duration) else t'.duration == t.duration)
    && t' == t.(status := t'.status, calledAt := t'.calledAt, endedAt := t'.endedAt, duration := t'.duration)
  }

  predicate AttemptUpdated(a: Attempt, read: Attempt, next: Status, now: Time, a': Attempt) {
    && a'.status == next
    && (if next == Calling then Keeps(read.ringingAt, now, a'.ringingAt) else a'.ringingAt == a.ringingAt)
    && (if next == InCall then Keeps(read.answeredAt, now, a'.answeredAt) else a'.answeredAt == a.answeredAt)
    && a'.endedAt == (if Ended(next) then Some(now) else a.endedAt)
    && (if Ended(next) then Lasts(read.answeredAt, now, a.duration, a'.duration) else a'.duration == a.duration)
    && a' == a.(status := a'.status, ringingAt := a'.ringingAt, answeredAt := a'.answeredAt, endedAt := a'.endedAt,
                duration := a'.duration)
  }

  lemma UpdatedRows(t: Task, read: StatusRead, a: Attempt, attemptRead: Attempt, next: Status, now: Time)
    ensures TaskUpdated(t, read, next, now, StatusUpdatedTask(t, read, next, now))
    ensures AttemptUpdated(a, attemptRead, next, now, StatusUpdatedAttempt(a, attemptRead, next, now))
  {
    Duration(read.calledAt, now, t.duration);
    Duration(attemptRead.answeredAt, now, a.duration);
    hide DurationSeconds, Lasts;
  }

  lemma UpdateAppliesIff(db: Db, t: TaskId, read: StatusRead, next: Status)
    ensures UpdateApplies(db, t, read, next) <==>
      t in db.tasks && db.tasks[t].status == read.status && MayBecome(read.status, next)
  {
  }

  /** A status update is written exactly if the task still has the status that was read and may become the next
    * one. It writes the task and the attempt it names, and nothing else. */
  lemma UpdateWrites(db: Db, t: TaskId, target: Option<(AttemptId, Attempt)>, read: StatusRead, next: Status,
                     now: Time, db': Db)
    requires WellFormed(db) && Next(db, Update(t, target, read, next, now), db')
    ensures !(t in db.tasks && db.tasks[t].status == read.status && MayBecome(read.status, next)) ==> db' == db
    ensures t in db.tasks && db.tasks[t].status == read.status && MayBecome(read.status, next) ==>
      && db' == db.(tasks := db'.tasks, attempts := db'.attempts)
      && t in db'.tasks && db'.tasks == db.tasks[t := db'.tasks[t]]
      && TaskUpdated(db.tasks[t], read, next, now, db'.tasks[t])
      && (target.None? ==> db'.attempts == db.attempts)
      && (target.Some? ==>
            var id := target.value.0;
            && id in db.attempts && id in db'.attempts && db'.attempts == db.attempts[id := db'.attempts[id]]
            && AttemptUpdated(db.attempts[id], target.value.1, next, now, db'.attempts[id]))
  {
    if t in db.tasks {
      var a := if target.Some? then db.attempts[target.value.0] else NewAttempt(t, 1, Web, 0, 0);
      UpdatedRows(db.tasks[t], read, a, if target.Some? then target.value.1 else a, next, now);
    }
    UpdateAppliesIff(db, t, read, next);
    hide WellFormed, StatusUpdatedTask, StatusUpdatedAttempt, TaskUpdated, AttemptUpdated, UpdateApplies, MayBecome;
  }

  /** A local hangup is written exactly if the task has not ended: the task is completed now, and so is the attempt
    * it names, which keeps an end that it had when it was read. */
  lemma HangupWrites(db: Db, t: TaskId, target: Option<(AttemptId, Attempt)>, calledAtRead: Option<Time>, now: Time,
                     db': Db)
    requires WellFormed(db) && Next(db, Hangup(t, target, calledAtRead, now), db')
    ensures !(t in db.tasks && !Ended(db.tasks[t].status)) ==> db' == db
    ensures t in db.tasks && !Ended(db.tasks[t].status) ==>
      && db' == db.(tasks := db'.tasks, attempts := db'.attempts)
      && t in db'.tasks && db'.tasks == db.tasks[t := db'.tasks[t]]
      && TaskHungUp(db.tasks[t], calledAtRead, now, db'.tasks[t])
      && (target.None? ==> db'.attempts == db.attempts)
      && (target.Some? ==>
            var id := target.value.0;
            && id in db.attempts && id in db'.attempts && db'.attempts == db.attempts[id := db'.attempts[id]]
            && AttemptHungUp(db.attempts[id], target.value.1, now, db'.attempts[id]))
  {
    if t in db.tasks {
      var a := if target.Some? then db.attempts[target.value.0] else NewAttempt(t, 1, Web, 0, 0);
      HungUpRows(db.tasks[t], calledAtRead, a, if target.Some? then target.value.1 else a, now);
    }
    hide WellFormed, HungUpTask, HungUpAttempt, TaskHungUp, AttemptHungUp;
  }

  predicate TaskHungUp(t: Task, calledAtRead: Option<Time>, now: Time, t': Task) {
    && t'.status == Completed && t'.endedAt == Some(now) && Lasts(calledAtRead, now, t.duration, t'.duration)
    && t' == t.(status := t'.status, endedAt := t'.endedAt, duration := t'.duration)
  }

  predicate AttemptHungUp(a: Attempt, read: Attempt, now: Time, a': Attempt) {
    && a'.status == Completed && Keeps(read.endedAt, now, a'.endedAt)
    && Lasts(read.answeredAt, now, if read.duration.Some? then read.duration else a.duration, a'.duration)
    && a' == a.(status := a'.status, endedAt := a'.endedAt, duration := a'.duration)
  }

  lemma HungUpRows(t: Task, calledAtRead: Option<Time>, a: Attempt, read: Attempt, now: Time)
    ensures TaskHungUp(t, calledAtRead, now, HungUpTask(t, calledAtRead, now))
    ensures AttemptHungUp(a, read, now, HungUpAttempt(a, read, now))
  {
    Duration(calledAtRead, now, t.duration);
    Duration(read.answeredAt, now, read.duration.Or(a.duration));
    hide DurationSeconds, Lasts;
  }

  // --------------------------------------------------------------------- deliveries

  /** What a worker's commit writes about calls: a marker, a job id, or, for a dispatch that fails for good, the
    * failure of the attempt and of its task, each only while it is calling. */
  lemma DeliveryWrites(db: Db, d: Delivery, rows: map<AttemptId, OutboxRow>, db': Db)
    requires WellFormed(db) && Next(db, Worker(d, rows), db')
    ensures db' == db.(tasks := db'.tasks, attempts := db'.attempts, outbox := rows)
    ensures match d
            case NoChange => db'.tasks == db.tasks && db'.attempts == db.attempts
            case Mark(id, at) =>
              && id in db.attempts && db'.tasks == db.tasks
              && db'.attempts == db.attempts[id := db.attempts[id].(dispatchStartedAt := Some(at))]
            case Accept(id, jobId) =>
              && id in db.attempts && db'.tasks == db.tasks
              && db'.attempts == db.attempts[id := db.attempts[id].(providerJobId := Some(jobId))]
            case Fail(id, message, at, taskAt) =>
              && id in db.attempts && db.attempts[id].taskId in db.tasks
              && var a, t := db.attempts[id], db.TaskOf(id);
                && db'.attempts == (if a.status != Calling then db.attempts
                                    else db.attempts[id := a.(status := Failed, endedAt := Some(at),
                                                              hangupCause := Some(message))])
                && db'.tasks == (if t.status != Calling then db.tasks
                                 else db.tasks[a.taskId := t.(status := Failed, endedAt := Some(taskAt))])
  {
    hide Distinct;
  }
}
