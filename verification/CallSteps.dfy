/** Every commit that can change the rows of calls, as one step relation, and the runs it makes. */
module CallSteps {
  import opened Options
  import opened CallRows
  import opened ProviderEvents
  import opened CallDb

  /** What an outbox worker commits about the call it delivers, next to its outbox row. */
  datatype Delivery =
    | NoChange
    | Mark(attempt: AttemptId, at: Time)
    | Accept(attempt: AttemptId, jobId: string)
    | Fail(attempt: AttemptId, message: string, at: Time, taskAt: Time)

  datatype Step =
    | Create(task: TaskId)
    | Dispatch(task: TaskId, expected: Status, attempt: AttemptId, channel: Channel, now: Time, startedAt: Time)
    | Event(attempt: AttemptId, ev: ProviderEvent)
    | TakeSnapshot(snapshot: Snapshot, graceMs: nat)
    | Reap(now: Time, timeouts: Timeouts)
    | Update(task: TaskId, target: Option<(AttemptId, Attempt)>, read: StatusRead, next: Status, now: Time)
    | Hangup(task: TaskId, target: Option<(AttemptId, Attempt)>, calledAtRead: Option<Time>, now: Time)
    | Worker(delivery: Delivery, rows: map<AttemptId, OutboxRow>)

  predicate TargetOf(db: Db, task: TaskId, target: Option<(AttemptId, Attempt)>) {
    target.Some? ==> target.value.0 in db.attempts && db.attempts[target.value.0].taskId == task
  }

  /** What a worker commits about calls. A delivery names an attempt that exists. */
  function Delivered(db: Db, d: Delivery): Db
    requires WellFormed(db) && (d.NoChange? || d.attempt in db.attempts)
  {
    match d
    case NoChange => db
    case Mark(a, at) => Marked(db, a, at)
    case Accept(a, jobId) => Accepted(db, a, jobId)
    case Fail(a, message, at, taskAt) => DispatchFailed(db, a, message, at, taskAt)
  }

  /** One commit. Whatever a writer read before its transaction is an argument of its step, so that any
    * other commits may lie between the read and the write; a commit that finds its condition gone
    * changes nothing. New ids are fresh. */
  ghost predicate Next(db: Db, step: Step, db': Db)
    requires WellFormed(db)
  {
    match step
    case Create(t) => t !in db.tasks && db' == db.PutTask(t, NEW_TASK)
    case Dispatch(t, expected, a, channel, now, startedAt) =>
      && a !in db.attempts
      && db' == if Claims(db, t, expected) then Dispatched(db, t, a, channel, now, startedAt) else db
    case Event(a, ev) => db' == RecordEvent(db, a, ev)
    case TakeSnapshot(s, graceMs) => SnapshotEffect(db, s, graceMs, db')
    case Reap(now, timeouts) => ReapEffect(db, now, timeouts, db')
    case Update(t, target, read, next, now) =>
      && TargetOf(db, t, target)
      && db' == if UpdateApplies(db, t, read, next) then StatusUpdated(db, t, target, read, next, now) else db
    case Hangup(t, target, calledAtRead, now) =>
      && TargetOf(db, t, target)
      && db' == if HangupApplies(db, t) then HungUp(db, t, target, calledAtRead, now) else db
    case Worker(d, rows) =>
      && (d.NoChange? || d.attempt in db.attempts) && rows.Keys == db.outbox.Keys
      && db' == Delivered(db, d).(outbox := rows)
  }

  /** A run from the empty database: state `i + 1` follows from state `i` by step `i`. */
  ghost predicate IsRun(dbs: seq<Db>, steps: seq<Step>) {
    && |dbs| == |steps| + 1
    && dbs[0] == EMPTY
    && forall i {:trigger steps[i]} :: 0 <= i < |steps| ==> WellFormed(dbs[i]) && Next(dbs[i], steps[i], dbs[i + 1])
  }

  // ------------------------------------------------------------------ one row of a step

  /** What a step makes of one attempt. */
  function AttemptUnder(db: Db, step: Step, id: AttemptId): Attempt
    requires WellFormed(db) && id in db.attempts
  {
    var a := db.attempts[id];
    match step
    case Event(e, ev) =>
      if e == id && RecordOutcome(db, e, ev) == Ok(Applied) then AttemptAfter(db.TaskOf(id), a, ev) else a
    case TakeSnapshot(s, graceMs) => SnapshotAttempt(id, a, s, graceMs)
    case Reap(now, timeouts) => ReapAttempt(a, now, timeouts)
    case Update(t, target, read, next, now) =>
      if UpdateApplies(db, t, read, next) && target.Some? && target.value.0 == id
      then StatusUpdatedAttempt(a, target.value.1, next, now) else a
    case Hangup(t, target, _, now) =>
      if HangupApplies(db, t) && target.Some? && target.value.0 == id then HungUpAttempt(a, target.value.1, now) else a
    case Worker(Mark(e, at), _) => if e == id then a.(dispatchStartedAt := Some(at)) else a
    case Worker(Accept(e, jobId), _) => if e == id then a.(providerJobId := Some(jobId)) else a
    case Worker(Fail(e, message, at, _), _) => if e == id then FailedAttempt(a, message, at) else a
    case _ => a
  }

  predicate Closes(step: Step) {
    step.TakeSnapshot? || step.Reap?
  }

  function ClosesAt(step: Step): Time
    requires Closes(step)
  {
    if step.Reap? then step.now else step.snapshot.at
  }

  /** What a step other than a snapshot or the reaper makes of one task. */
  function TaskUnder(db: Db, step: Step, id: TaskId): Task
    requires WellFormed(db) && id in db.tasks && !Closes(step)
    requires step.Worker? ==> step.delivery.NoChange? || step.delivery.attempt in db.attempts
  {
    var t := db.tasks[id];
    match step
    case Dispatch(t', expected, _, _, _, _) =>
      if t' == id && Claims(db, id, expected) then t.(status := Calling, attemptCount := t.attemptCount + 1) else t
    case Event(e, ev) =>
      if RecordOutcome(db, e, ev) == Ok(Applied) && db.attempts[e].taskId == id
      then TaskAfter(t, db.attempts[e], ev) else t
    case Update(t', _, read, next, now) =>
      if t' == id && UpdateApplies(db, id, read, next) then StatusUpdatedTask(t, read, next, now) else t
    case Hangup(t', _, calledAtRead, now) =>
      if t' == id && HangupApplies(db, id) then HungUpTask(t, calledAtRead, now) else t
    case Worker(Fail(e, _, _, taskAt), _) =>
      if db.attempts[e].taskId == id && t.status == Calling then t.(status := Failed, endedAt := Some(taskAt)) else t
    case _ => t
  }

  /** How a step changes the rows: the attempts and tasks that were there, and the ones it adds. */
  ghost predicate RowsStep(db: Db, step: Step, db': Db)
    requires WellFormed(db) && (step.Worker? ==> step.delivery.NoChange? || step.delivery.attempt in db.attempts)
  {
    var claimed := step.Dispatch? && Claims(db, step.task, step.expected);
    && db'.attempts.Keys == (if claimed then db.attempts.Keys + {step.attempt} else db.attempts.Keys)
    && db'.tasks.Keys == (if step.Create? then db.tasks.Keys + {step.task} else db.tasks.Keys)
    && (forall a :: a in db.attempts ==> db'.attempts[a] == AttemptUnder(db, step, a))
    && (!Closes(step) ==> forall t :: t in db.tasks ==> db'.tasks[t] == TaskUnder(db, step, t))
    && (step.Create? ==> db'.tasks[step.task] == NEW_TASK)
    && (claimed ==> db'.attempts[step.attempt] ==
                    NewAttempt(step.task, db.tasks[step.task].attemptCount + 1, step.channel, step.now,
                               step.startedAt))
  }

  lemma StepsRows(db: Db, step: Step, db': Db)
    requires WellFormed(db) && Next(db, step, db')
    ensures step.Worker? ==> step.delivery.NoChange? || step.delivery.attempt in db.attempts
    ensures RowsStep(db, step, db')
  {
    match step
    case Create(_) => StepsCreate(db, step, db'); hide *;
    case Dispatch(_, _, _, _, _, _) => StepsDispatch(db, step, db'); hide *;
    case Event(_, _) => StepsEvent(db, step, db'); hide *;
    case TakeSnapshot(_, _) => StepsClose(db, step, db'); hide *;
    case Reap(_, _) => StepsClose(db, step, db'); hide *;
    case Update(_, _, _, _, _) => StepsUpdate(db, step, db'); hide *;
    case Hangup(_, _, _, _) => StepsHangup(db, step, db'); hide *;
    case Worker(d, _) => if d.Fail? { StepsFail(db, step, db'); } else { StepsDelivery(db, step, db'); } hide *;
  }

  lemma AttemptSteps(db: Db, step: Step, db': Db, id: AttemptId)
    requires WellFormed(db) && Next(db, step, db') && id in db.attempts
    ensures id in db'.attempts && db'.attempts[id] == AttemptUnder(db, step, id)
  {
    StepsRows(db, step, db');
    hide Next, WellFormed, AttemptUnder, TaskUnder;
  }

  lemma TaskSteps(db: Db, step: Step, db': Db, id: TaskId)
    requires WellFormed(db) && Next(db, step, db') && id in db.tasks
    ensures step.Worker? ==> step.delivery.NoChange? || step.delivery.attempt in db.attempts
    ensures id in db'.tasks
    ensures !Closes(step) ==> db'.tasks[id] == TaskUnder(db, step, id)
  {
    StepsRows(db, step, db');
    hide Next, WellFormed, AttemptUnder, TaskUnder;
  }

  lemma StepsCreate(db: Db, step: Step, db': Db)
    requires WellFormed(db) && Next(db, step, db') && step.Create?
    ensures RowsStep(db, step, db')
  {
    hide AttemptAfter, TaskAfter, SnapshotAttempt, ReapAttempt, StatusUpdatedAttempt;
    hide StatusUpdatedTask, HungUpAttempt, HungUpTask;
    hide FailedAttempt, NewAttempt, CloseTask, Decides, Allowed, Terminal;
    hide WellFormed, RecordOutcome, UpdateApplies, HangupApplies, Claims;
  }

  lemma StepsDispatch(db: Db, step: Step, db': Db)
    requires WellFormed(db) && Next(db, step, db') && step.Dispatch?
    ensures RowsStep(db, step, db')
  {
    hide AttemptAfter, TaskAfter, SnapshotAttempt, ReapAttempt, StatusUpdatedAttempt;
    hide StatusUpdatedTask, HungUpAttempt, HungUpTask;
    hide FailedAttempt, NewAttempt, CloseTask, Decides, Allowed, Terminal;
    hide WellFormed, RecordOutcome, UpdateApplies, HangupApplies;
  }

  lemma StepsEvent(db: Db, step: Step, db': Db)
    requires WellFormed(db) && Next(db, step, db') && step.Event?
    ensures RowsStep(db, step, db')
  {
    hide AttemptAfter, TaskAfter, SnapshotAttempt, ReapAttempt, StatusUpdatedAttempt;
    hide StatusUpdatedTask, HungUpAttempt, HungUpTask;
    hide FailedAttempt, NewAttempt, CloseTask, Decides, Allowed, Terminal, UpdateApplies, HangupApplies, Claims;
  }

  lemma StepsClose(db: Db, step: Step, db': Db)
    requires WellFormed(db) && Next(db, step, db') && Closes(step)
    ensures RowsStep(db, step, db')
  {
    hide AttemptAfter, TaskAfter, SnapshotAttempt, ReapAttempt, StatusUpdatedAttempt;
    hide StatusUpdatedTask, HungUpAttempt, HungUpTask;
    hide FailedAttempt, NewAttempt, CloseTask, Decides, Allowed, Terminal;
    hide WellFormed, RecordOutcome, UpdateApplies, HangupApplies, Claims;
  }

  lemma StepsUpdate(db: Db, step: Step, db': Db)
    requires WellFormed(db) && Next(db, step, db') && step.Update?
    ensures RowsStep(db, step, db')
  {
    hide AttemptAfter, TaskAfter, SnapshotAttempt, ReapAttempt, StatusUpdatedAttempt;
    hide StatusUpdatedTask, HungUpAttempt, HungUpTask;
    hide FailedAttempt, NewAttempt, CloseTask, Decides, Allowed, Terminal;
    hide WellFormed, RecordOutcome, HangupApplies, Claims;
  }

  lemma StepsHangup(db: Db, step: Step, db': Db)
    requires WellFormed(db) && Next(db, step, db') && step.Hangup?
    ensures RowsStep(db, step, db')
  {
    hide AttemptAfter, TaskAfter, SnapshotAttempt, ReapAttempt, StatusUpdatedAttempt;
    hide StatusUpdatedTask, HungUpAttempt, HungUpTask;
    hide FailedAttempt, NewAttempt, CloseTask, Decides, Allowed, Terminal;
    hide WellFormed, RecordOutcome, UpdateApplies, Claims;
  }

  lemma StepsDelivery(db: Db, step: Step, db': Db)
    requires WellFormed(db) && Next(db, step, db') && step.Worker? && !step.delivery.Fail?
    ensures RowsStep(db, step, db')
  {
    hide AttemptAfter, TaskAfter, SnapshotAttempt, ReapAttempt, StatusUpdatedAttempt;
    hide StatusUpdatedTask, HungUpAttempt, HungUpTask;
    hide FailedAttempt, NewAttempt, CloseTask, Decides, Allowed, Terminal;
    hide WellFormed, RecordOutcome, UpdateApplies, HangupApplies, Claims;
    WritesOneAttempt(db, step.delivery);
    hide Delivered;
    assert db' == Delivered(db, step.delivery).(outbox := step.rows);
  }

  lemma WritesOneAttempt(db: Db, d: Delivery)
    requires WellFormed(db) && !d.Fail? && (d.NoChange? || d.attempt in db.attempts)
    ensures var db' := Delivered(db, d);
      && db'.attempts.Keys == db.attempts.Keys && db'.tasks == db.tasks
      && forall a :: a in db.attempts ==>
           db'.attempts[a] == match d
                              case Mark(e, at) =>
                                if e == a then db.attempts[a].(dispatchStartedAt := Some(at)) else db.attempts[a]
                              case Accept(e, jobId) =>
                                if e == a then db.attempts[a].(providerJobId := Some(jobId)) else db.attempts[a]
                              case _ => db.attempts[a]
  {
    hide WellFormed;
  }

  lemma StepsFail(db: Db, step: Step, db': Db)
    requires WellFormed(db) && Next(db, step, db') && step.Worker? && step.delivery.Fail?
    ensures RowsStep(db, step, db')
  {
    hide AttemptAfter, TaskAfter, SnapshotAttempt, ReapAttempt, StatusUpdatedAttempt;
    hide StatusUpdatedTask, HungUpAttempt, HungUpTask;
    hide FailedAttempt, NewAttempt, CloseTask, Decides, Allowed, Terminal;
    hide RecordOutcome, UpdateApplies, HangupApplies, Claims;
    var Fail(e, message, at, taskAt) := step.delivery;
    FailsOneCall(db, e, message, at, taskAt);
    hide DispatchFailed;
    assert db' == DispatchFailed(db, e, message, at, taskAt).(outbox := step.rows);
  }

  lemma FailsOneCall(db: Db, e: AttemptId, message: string, at: Time, taskAt: Time)
    requires WellFormed(db) && e in db.attempts
    ensures var d := DispatchFailed(db, e, message, at, taskAt);
      && d.attempts.Keys == db.attempts.Keys && d.tasks.Keys == db.tasks.Keys
      && (forall a :: a in db.attempts ==>
            d.attempts[a] == if a == e then FailedAttempt(db.attempts[a], message, at) else db.attempts[a])
      && forall t :: t in db.tasks ==>
           d.tasks[t] == if db.attempts[e].taskId == t && db.tasks[t].status == Calling
                         then db.tasks[t].(status := Failed, endedAt := Some(taskAt)) else db.tasks[t]
  {
    hide FailedAttempt;
  }

  lemma KeepsIdentity(db: Db, step: Step, id: AttemptId)
    requires WellFormed(db) && id in db.attempts
    ensures var a, a' := db.attempts[id], AttemptUnder(db, step, id);
      a'.taskId == a.taskId && a'.attemptNo == a.attemptNo && a'.channel == a.channel && a'.startedAt == a.startedAt
  {
    hide Earliest, Latest, DurationSeconds, TerminalStatus, NormalizeCause, AnswerTime, JobFailure, WellFormed;
    hide Counts, Misses, Prefilter, TimedOut, ClosingStatus, RecordOutcome, UpdateApplies, HangupApplies;
    hide IsAnswer, IsHangup, IsRecording, IsProgress, IsBackgroundJob, IsFatal, AnswerEvidence;
  }

  /** A snapshot or the reaper leaves a task alone unless one of its attempts decides it. */
  lemma TaskCloses(db: Db, step: Step, db': Db, id: TaskId) returns (decider: Option<AttemptId>)
    requires WellFormed(db) && Next(db, step, db') && id in db.tasks && Closes(step)
    ensures id in db'.tasks && db'.attempts.Keys == db.attempts.Keys
    ensures decider.None? ==> db'.tasks[id] == db.tasks[id]
    ensures decider.None? ==>
      forall a :: a in db.attempts && db.attempts[a].taskId == id ==> !Decides(db, db'.attempts, a)
    ensures decider.Some? ==>
      && decider.value in db.attempts && db.attempts[decider.value].taskId == id
      && Decides(db, db'.attempts, decider.value)
      && db'.tasks[id] == CloseTask(db.tasks[id], db'.attempts[decider.value].status, ClosesAt(step))
  {
    hide SnapshotAttempts, ReapAttempts, CloseTask, Decides, WellFormed;
    if a :| a in db.attempts && db.attempts[a].taskId == id && Decides(db, db'.attempts, a) {
      decider := Some(a);
    } else {
      decider := None;
    }
  }
}
