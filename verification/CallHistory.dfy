/** What stays true of tasks and attempts in every run. */
module CallHistory {
  import opened Options
  import opened CallRows
  import opened ProviderEvents
  import opened CallDb
  import opened CallSteps
  import CallStore

  // ------------------------------------------------------------ the constraints of the schema

  lemma TaskCounts(db: Db, step: Step, db': Db, t: TaskId)
    requires WellFormed(db) && Next(db, step, db') && t in db.tasks
    ensures t in db'.tasks
    ensures db'.tasks[t].attemptCount == db.tasks[t].attemptCount +
            if step.Dispatch? && Claims(db, step.task, step.expected) && step.task == t then 1 else 0
  {
    StepsRows(db, step, db');
    if Closes(step) {
      var _ := TaskCloses(db, step, db', t);
    } else if step.Event? && step.attempt in db.attempts && db.attempts[step.attempt].taskId == t {
      CallStore.EventKeepsIdentity(db.tasks[t], db.attempts[step.attempt], step.ev);
    }
    hide WellFormed, Next, AttemptUnder, TaskAfter, AttemptAfter, RecordOutcome, Decides, UpdateApplies;
  }

  lemma OutboxGrows(db: Db, step: Step, db': Db)
    requires WellFormed(db) && Next(db, step, db')
    ensures forall a :: a in db'.outbox ==>
      || a in db.outbox
      || (step.Dispatch? && Claims(db, step.task, step.expected) && step.attempt == a && step.channel == FreeSwitch)
  {
    hide WellFormed, RecordOutcome, AttemptAfter, TaskAfter, NewAttempt, UpdateApplies, HangupApplies, TasksFollow;
    hide StatusUpdatedTask, StatusUpdatedAttempt, HungUpTask, HungUpAttempt;
    hide FailedAttempt, SnapshotAttempts, ReapAttempts;
  }

  /** The attempts of the next state: those that were there, and the one that was dispatched. */
  lemma NextAttempts(db: Db, step: Step, db': Db, a: AttemptId)
    requires WellFormed(db) && Next(db, step, db') && a in db'.attempts
    ensures a in db.attempts ==>
      && db'.attempts[a].taskId == db.attempts[a].taskId && db'.attempts[a].attemptNo == db.attempts[a].attemptNo
      && db'.attempts[a].channel == db.attempts[a].channel && db'.attempts[a].taskId in db.tasks
      && 1 <= db'.attempts[a].attemptNo <= db.TaskOf(a).attemptCount
    ensures a !in db.attempts ==>
      && step.Dispatch? && Claims(db, step.task, step.expected) && step.attempt == a
      && db'.attempts[a] == NewAttempt(step.task, db.tasks[step.task].attemptCount + 1, step.channel, step.now,
                                       step.startedAt)
  {
    StepsRows(db, step, db');
    if a in db.attempts {
      KeepsIdentity(db, step, a);
    }
    hide AttemptUnder, TaskUnder, Next, NewAttempt;
  }

  lemma KeepsCounted(db: Db, step: Step, db': Db)
    requires WellFormed(db) && Next(db, step, db')
    ensures Counted(db')
  {
    forall a | a in db'.attempts
      ensures db'.attempts[a].taskId in db'.tasks && 1 <= db'.attempts[a].attemptNo <= db'.TaskOf(a).attemptCount
    {
      NextAttempts(db, step, db', a);
      TaskCounts(db, step, db', if a in db.attempts then db.attempts[a].taskId else step.task);
      hide Next, WellFormed;
    }
    hide *;
  }

  lemma KeepsDistinct(db: Db, step: Step, db': Db)
    requires WellFormed(db) && Next(db, step, db')
    ensures Distinct(db')
  {
    forall a, b | a in db'.attempts && b in db'.attempts
      && db'.attempts[a].taskId == db'.attempts[b].taskId && db'.attempts[a].attemptNo == db'.attempts[b].attemptNo
      ensures a == b
    {
      NextAttempts(db, step, db', a);
      NextAttempts(db, step, db', b);
      hide Next, Counted;
    }
    hide Next, WellFormed;
  }

  lemma KeepsWellFormed(db: Db, step: Step, db': Db)
    requires WellFormed(db) && Next(db, step, db')
    ensures WellFormed(db')
  {
    KeepsCounted(db, step, db');
    KeepsDistinct(db, step, db');
    OutboxGrows(db, step, db');
    forall a | a in db'.outbox
      ensures a in db'.attempts && db'.attempts[a].channel == FreeSwitch
    {
      StepsRows(db, step, db');
      NextAttempts(db, step, db', a);
      hide Next, Counted, Distinct, AttemptUnder, TaskUnder;
    }
    hide Next, Counted, Distinct;
  }

  // --------------------------------------------------- a task mirrors its latest attempt

  /** A task agrees with one of its attempts: an attempt that is not the latest has ended, the latest has
    * the status of the task, and the first, while it is the only one, also has its answer time and its
    * duration. */
  predicate Agrees(t: Task, a: Attempt) {
    && a.status != Pending
    && (a.attemptNo < t.attemptCount ==> Terminal(a.status))
    && (a.attemptNo == t.attemptCount ==> t.status == a.status)
    && (t.attemptCount == 1 ==> t.calledAt == a.answeredAt && t.duration == a.duration)
  }

  ghost predicate HasNumber(db: Db, t: TaskId, n: nat, a: AttemptId) {
    a in db.attempts && db.attempts[a].taskId == t && db.attempts[a].attemptNo == n
  }

  /** The attempts of every task are numbered from 1 to its count, and it agrees with each of them. A task
    * without attempts is as it was created. (`WellFormed` says that no number occurs twice.) */
  ghost predicate Consistent(db: Db)
    requires WellFormed(db)
  {
    && Numbered(db)
    && (forall t :: t in db.tasks && db.tasks[t].attemptCount == 0 ==> db.tasks[t] == NEW_TASK)
    && (forall a :: a in db.attempts ==> Agrees(db.TaskOf(a), db.attempts[a]))
  }

  ghost predicate Held(db: Db, t: TaskId, n: nat) {
    exists a :: HasNumber(db, t, n, a)
  }

  ghost predicate Numbered(db: Db) {
    forall t, n :: t in db.tasks && 1 <= n <= db.tasks[t].attemptCount ==> Held(db, t, n)
  }

  /** A writer that read first names the latest attempt of the task that it writes. */
  predicate NamesLatest(db: Db, target: Option<(AttemptId, Attempt)>)
    requires WellFormed(db)
  {
    target.Some? && target.value.0 in db.attempts && LatestIn(db, target.value.0)
  }

  /** What a status update read gives a task and its only attempt the same answer time, or the same
    * duration. */
  predicate UpdateTimesMatch(t: Task, read: StatusRead, attemptRead: Attempt, next: Status, now: Time) {
    && (next == InCall ==>
          (if read.calledAt.None? then Some(now) else t.calledAt) == attemptRead.answeredAt.Or(Some(now)))
    && (Terminal(next) ==>
          DurationSeconds(read.calledAt, now).Or(t.duration) ==
          DurationSeconds(attemptRead.answeredAt, now).Or(t.duration))
  }

  /** The same for the duration that a local hangup writes. */
  predicate HangupTimesMatch(t: Task, calledAtRead: Option<Time>, attemptRead: Attempt, now: Time) {
    DurationSeconds(calledAtRead, now).Or(t.duration) ==
    DurationSeconds(attemptRead.answeredAt, now).Or(attemptRead.duration).Or(t.duration)
  }

  /** What a caller can check before a step: a status update or a local hangup that applies names the latest
    * attempt, with times that match if it is the only one, and a dispatch fails for good only while its
    * attempt is the latest or its task is not calling. */
  predicate Coherent(db: Db, step: Step)
    requires WellFormed(db)
  {
    match step
    case Update(t, target, read, next, now) =>
      UpdateApplies(db, t, read, next) ==>
        NamesLatest(db, target) &&
        (db.tasks[t].attemptCount == 1 ==> UpdateTimesMatch(db.tasks[t], read, target.value.1, next, now))
    case Hangup(t, target, calledAtRead, now) =>
      HangupApplies(db, t) ==>
        NamesLatest(db, target) &&
        (db.tasks[t].attemptCount == 1 ==> HangupTimesMatch(db.tasks[t], calledAtRead, target.value.1, now))
    case Worker(Fail(a, _, _, _), _) =>
      a in db.attempts ==> LatestIn(db, a) || db.TaskOf(a).status != Calling
    case _ => true
  }

  /** The steps of the pipeline itself: no status updates and local hangups. */
  predicate Core(db: Db, step: Step)
    requires WellFormed(db)
  {
    !step.Update? && !step.Hangup? && Coherent(db, step)
  }

  lemma EventAgrees(t: Task, a: Attempt, ev: ProviderEvent)
    requires Agrees(t, a) && 1 <= a.attemptNo <= t.attemptCount
    ensures Agrees(TaskAfter(t, a, ev), AttemptAfter(t, a, ev))
  {
    CallStore.KindsAreDisjoint(ev.eventType);
    hide IsAnswer, IsHangup, IsRecording, IsProgress, IsBackgroundJob;
    hide NormalizeCause, IsFatal, AnswerEvidence, AnswerTime, JobFailure, DurationSeconds, Latest;
  }

  /** An event of attempt `e` leaves its task in agreement with the other attempts. */
  lemma EventAgreesWithOthers(t: Task, e: Attempt, ev: ProviderEvent, a: Attempt)
    requires Agrees(t, a) && 1 <= a.attemptNo <= t.attemptCount
    requires 1 <= e.attemptNo <= t.attemptCount && e.attemptNo != a.attemptNo
    ensures Agrees(TaskAfter(t, e, ev), a)
  {
    CallStore.EventKeepsIdentity(t, e, ev);
    hide Latest, Earliest, CloseTask, HangupStatus, Backfilled, DurationSeconds, FailsJob, AttemptAfter, Terminal;
    hide IsAnswer, IsHangup, IsRecording, IsProgress, IsBackgroundJob;
  }

  /** What a snapshot or the reaper may do to an attempt: nothing that its task mirrors, or end it. */
  predicate LeftOrClosed(a: Attempt, a': Attempt, at: Time) {
    || (a'.status == a.status && a'.answeredAt == a.answeredAt && a'.endedAt == a.endedAt && a'.duration == a.duration)
    || (&& Active(a.status) && Terminal(a'.status) && a'.answeredAt == a.answeredAt
        && a'.endedAt == a.endedAt.Or(Some(at)) && a'.duration == DurationSeconds(a.answeredAt, at).Or(a.duration))
  }

  lemma ClosingLeavesOrCloses(db: Db, step: Step, id: AttemptId)
    requires WellFormed(db) && Closes(step) && id in db.attempts
    ensures LeftOrClosed(db.attempts[id], AttemptUnder(db, step, id), ClosesAt(step))
  {
    hide DurationSeconds, NormalizeCause, TerminalStatus, WellFormed;
  }

  /** The rows of a snapshot or of the reaper: the task is left alone, closed with this attempt, or closed
    * with status `other` by a later one. */
  lemma ClosedPairAgrees(t: Task, a: Attempt, t': Task, a': Attempt, at: Time, other: Option<Status>)
    requires Agrees(t, a) && a.attemptNo <= t.attemptCount && a'.attemptNo == a.attemptNo && LeftOrClosed(a, a', at)
    requires var decides := !Terminal(a.status) && Terminal(a'.status) && IsLatest(t, a) && !Terminal(t.status);
      if decides then t' == CloseTask(t, a'.status, at)
      else if other.Some? then t' == CloseTask(t, other.value, at) && !IsLatest(t, a) && t.attemptCount > 1
      else t' == t
    ensures Agrees(t', a')
  {
    hide DurationSeconds;
  }

  lemma ClosingAgrees(db: Db, step: Step, db': Db, id: AttemptId)
    requires WellFormed(db) && Next(db, step, db') && Closes(step) && id in db.attempts && id in db'.attempts
    requires Agrees(db.TaskOf(id), db.attempts[id])
    requires db.attempts[id].taskId in db'.tasks
    ensures Agrees(db'.tasks[db.attempts[id].taskId], db'.attempts[id])
  {
    hide Next, AttemptUnder, CloseTask, LeftOrClosed, ClosesAt, Agrees, RowsStep, Closes, Terminal;
    var t := db.attempts[id].taskId;
    AttemptSteps(db, step, db', id);
    ClosingLeavesOrCloses(db, step, id);
    KeepsIdentity(db, step, id);
    var decider := TaskCloses(db, step, db', t);
    if decider.None? {
      assert !Decides(db, db'.attempts, id);
      ClosedPairAgrees(db.tasks[t], db.attempts[id], db'.tasks[t], db'.attempts[id], ClosesAt(step), None);
    } else {
      assert decider.value != id ==> !LatestIn(db, id) && db.tasks[t].attemptCount > 1;
      ClosedPairAgrees(db.tasks[t], db.attempts[id], db'.tasks[t], db'.attempts[id], ClosesAt(step),
                       Some(db'.attempts[decider.value].status));
    }
  }

  lemma DispatchAgrees(t: Task, a: Attempt)
    requires Agrees(t, a) && 1 <= a.attemptNo <= t.attemptCount
    ensures Allowed(t.status, Calling) ==> Agrees(t.(status := Calling, attemptCount := t.attemptCount + 1), a)
  {
  }

  lemma FailAgrees(t: Task, e: Attempt, a: Attempt, message: string, at: Time, taskAt: Time)
    requires Agrees(t, e) && 1 <= e.attemptNo <= t.attemptCount && Agrees(t, a) && 1 <= a.attemptNo <= t.attemptCount
    requires e.attemptNo == a.attemptNo ==> e == a
    requires IsLatest(t, e) || t.status != Calling
    ensures var t' := if t.status == Calling then t.(status := Failed, endedAt := Some(taskAt)) else t;
      Agrees(t', if e == a then FailedAttempt(a, message, at) else a)
  {
  }

  lemma UpdateAgrees(t: Task, a: Attempt, read: StatusRead, attemptRead: Attempt, next: Status, now: Time)
    requires Agrees(t, a) && 1 <= a.attemptNo && IsLatest(t, a) && Allowed(t.status, next)
    ensures Agrees(StatusUpdatedTask(t, read, next, now), StatusUpdatedAttempt(a, attemptRead, next, now)) <==>
      (t.attemptCount == 1 ==> UpdateTimesMatch(t, read, attemptRead, next, now))
  {
    hide DurationSeconds;
  }

  lemma UpdateAgreesWithOthers(t: Task, a: Attempt, read: StatusRead, next: Status, now: Time)
    requires Agrees(t, a) && 1 <= a.attemptNo <= t.attemptCount && Allowed(t.status, next) && next != t.status
    ensures Agrees(StatusUpdatedTask(t, read, next, now), a) <==> !IsLatest(t, a)
  {
    hide DurationSeconds;
  }

  lemma HangupAgrees(t: Task, a: Attempt, calledAtRead: Option<Time>, attemptRead: Attempt, now: Time)
    requires Agrees(t, a) && 1 <= a.attemptNo && IsLatest(t, a)
    ensures Agrees(HungUpTask(t, calledAtRead, now), HungUpAttempt(a, attemptRead, now)) <==>
      (t.attemptCount == 1 ==> HangupTimesMatch(t, calledAtRead, attemptRead, now))
  {
    hide DurationSeconds;
  }

  lemma HangupAgreesWithOthers(t: Task, a: Attempt, calledAtRead: Option<Time>, now: Time)
    requires Agrees(t, a) && 1 <= a.attemptNo <= t.attemptCount && !Terminal(t.status)
    ensures Agrees(HungUpTask(t, calledAtRead, now), a) <==> !IsLatest(t, a)
  {
    hide DurationSeconds;
  }

  lemma InAgreement(db: Db, id: AttemptId)
    requires WellFormed(db) && Consistent(db) && id in db.attempts
    ensures db.attempts[id].taskId in db.tasks && 1 <= db.attempts[id].attemptNo <= db.TaskOf(id).attemptCount
    ensures Agrees(db.TaskOf(id), db.attempts[id])
  {
    hide Agrees, Numbered;
  }

  lemma OldAttemptAgrees(db: Db, step: Step, db': Db, id: AttemptId)
    requires WellFormed(db) && Consistent(db) && Next(db, step, db') && Coherent(db, step) && id in db.attempts
    ensures id in db'.attempts && db.attempts[id].taskId in db'.tasks
    ensures Agrees(db'.tasks[db.attempts[id].taskId], db'.attempts[id])
  {
    match step
    case Event(_, _) => EventKeepsAgreement(db, step, db', id); hide *;
    case Worker(Fail(_, _, _, _), _) => FailKeepsAgreement(db, step, db', id); hide *;
    case TakeSnapshot(_, _) => ClosingAgrees(db, step, db', id); hide *;
    case Reap(_, _) => ClosingAgrees(db, step, db', id); hide *;
    case Update(_, _, _, _, _) => UpdateKeepsAgreement(db, step, db', id); hide *;
    case Hangup(_, _, _, _) => HangupKeepsAgreement(db, step, db', id); hide *;
    case Dispatch(_, _, _, _, _, _) => DispatchKeepsAgreement(db, step, db', id); hide *;
    case _ => OthersKeepAgreement(db, step, db', id); hide *;
  }

  lemma OthersKeepAgreement(db: Db, step: Step, db': Db, id: AttemptId)
    requires WellFormed(db) && Consistent(db) && Next(db, step, db') && id in db.attempts
    requires step.Create? || (step.Worker? && !step.delivery.Fail?)
    ensures id in db'.attempts && db.attempts[id].taskId in db'.tasks
    ensures Agrees(db'.tasks[db.attempts[id].taskId], db'.attempts[id])
  {
    InAgreement(db, id);
    AttemptSteps(db, step, db', id);
    TaskSteps(db, step, db', db.attempts[id].taskId);
    hide Next, Consistent, WellFormed, Terminal;
  }

  lemma DispatchKeepsAgreement(db: Db, step: Step, db': Db, id: AttemptId)
    requires WellFormed(db) && Consistent(db) && Next(db, step, db') && step.Dispatch? && id in db.attempts
    ensures id in db'.attempts && db.attempts[id].taskId in db'.tasks
    ensures Agrees(db'.tasks[db.attempts[id].taskId], db'.attempts[id])
  {
    InAgreement(db, id);
    AttemptSteps(db, step, db', id);
    TaskSteps(db, step, db', db.attempts[id].taskId);
    DispatchAgrees(db.TaskOf(id), db.attempts[id]);
    hide Agrees, Next, Consistent, WellFormed;
  }

  lemma OnlyOneIsLatest(db: Db, a: AttemptId, b: AttemptId)
    requires WellFormed(db) && a in db.attempts && b in db.attempts && db.attempts[a].taskId == db.attempts[b].taskId
    requires LatestIn(db, a)
    ensures LatestIn(db, b) <==> a == b
  {
  }

  lemma UpdateKeepsAgreement(db: Db, step: Step, db': Db, id: AttemptId)
    requires WellFormed(db) && Consistent(db) && Next(db, step, db') && Coherent(db, step) && id in db.attempts
    requires step.Update?
    ensures id in db'.attempts && db.attempts[id].taskId in db'.tasks
    ensures Agrees(db'.tasks[db.attempts[id].taskId], db'.attempts[id])
  {
    var Update(t, target, read, next, now) := step;
    InAgreement(db, id);
    AttemptSteps(db, step, db', id);
    TaskSteps(db, step, db', db.attempts[id].taskId);
    if db.attempts[id].taskId == t && UpdateApplies(db, t, read, next) {
      assert TargetOf(db, t, target);
      OnlyOneIsLatest(db, target.value.0, id);
      hide Agrees, Next, Consistent, WellFormed, StatusUpdatedTask, StatusUpdatedAttempt, Allowed, UpdateTimesMatch;
      if target.value.0 == id {
        UpdateAgrees(db.tasks[t], db.attempts[id], read, target.value.1, next, now);
      } else {
        UpdateAgreesWithOthers(db.tasks[t], db.attempts[id], read, next, now);
      }
    } else {
      assert target.Some? ==> db.attempts[target.value.0].taskId == t;
      hide Agrees, Next, Consistent, WellFormed, StatusUpdatedTask, StatusUpdatedAttempt, Coherent;
    }
  }

  lemma HangupKeepsAgreement(db: Db, step: Step, db': Db, id: AttemptId)
    requires WellFormed(db) && Consistent(db) && Next(db, step, db') && Coherent(db, step) && id in db.attempts
    requires step.Hangup?
    ensures id in db'.attempts && db.attempts[id].taskId in db'.tasks
    ensures Agrees(db'.tasks[db.attempts[id].taskId], db'.attempts[id])
  {
    var Hangup(t, target, calledAtRead, now) := step;
    InAgreement(db, id);
    AttemptSteps(db, step, db', id);
    TaskSteps(db, step, db', db.attempts[id].taskId);
    if db.attempts[id].taskId == t && HangupApplies(db, t) {
      assert TargetOf(db, t, target);
      OnlyOneIsLatest(db, target.value.0, id);
      hide Agrees, Next, Consistent, WellFormed, HungUpTask, HungUpAttempt, HangupTimesMatch;
      if target.value.0 == id {
        HangupAgrees(db.tasks[t], db.attempts[id], calledAtRead, target.value.1, now);
      } else {
        HangupAgreesWithOthers(db.tasks[t], db.attempts[id], calledAtRead, now);
      }
    } else {
      assert target.Some? ==> db.attempts[target.value.0].taskId == t;
      hide Agrees, Next, Consistent, WellFormed, HungUpTask, HungUpAttempt, Coherent;
    }
  }

  lemma EventKeepsAgreement(db: Db, step: Step, db': Db, id: AttemptId)
    requires WellFormed(db) && Consistent(db) && Next(db, step, db') && step.Event? && id in db.attempts
    ensures id in db'.attempts && db.attempts[id].taskId in db'.tasks
    ensures Agrees(db'.tasks[db.attempts[id].taskId], db'.attempts[id])
  {
    var Event(e, ev) := step;
    InAgreement(db, id);
    AttemptSteps(db, step, db', id);
    TaskSteps(db, step, db', db.attempts[id].taskId);
    hide Agrees, AttemptAfter, TaskAfter, Next, Consistent;
    if RecordOutcome(db, e, ev) == Ok(Applied) && db.attempts[e].taskId == db.attempts[id].taskId {
      if e == id {
        EventAgrees(db.TaskOf(id), db.attempts[id], ev);
      } else {
        EventAgreesWithOthers(db.TaskOf(id), db.attempts[e], ev, db.attempts[id]);
      }
    }
  }

  lemma FailKeepsAgreement(db: Db, step: Step, db': Db, id: AttemptId)
    requires WellFormed(db) && Consistent(db) && Next(db, step, db') && Coherent(db, step) && id in db.attempts
    requires step.Worker? && step.delivery.Fail?
    ensures id in db'.attempts && db.attempts[id].taskId in db'.tasks
    ensures Agrees(db'.tasks[db.attempts[id].taskId], db'.attempts[id])
  {
    var Fail(e, message, at, taskAt) := step.delivery;
    InAgreement(db, id);
    InAgreement(db, e);
    AttemptSteps(db, step, db', id);
    TaskSteps(db, step, db', db.attempts[id].taskId);
    assert Distinct(db);
    hide Agrees, FailedAttempt, Next, Consistent, WellFormed;
    if db.attempts[e].taskId == db.attempts[id].taskId {
      FailAgrees(db.TaskOf(id), db.attempts[e], db.attempts[id], message, at, taskAt);
    }
  }

  lemma KeepsAgreement(db: Db, step: Step, db': Db)
    requires WellFormed(db) && Consistent(db) && Next(db, step, db') && Coherent(db, step)
    ensures WellFormed(db')
    ensures forall a :: a in db'.attempts ==> Agrees(db'.TaskOf(a), db'.attempts[a])
  {
    KeepsWellFormed(db, step, db');
    forall a | a in db'.attempts
      ensures Agrees(db'.TaskOf(a), db'.attempts[a])
    {
      if a in db.attempts {
        OldAttemptAgrees(db, step, db', a);
        NextAttempts(db, step, db', a);
        hide Next, WellFormed, Consistent, Agrees, Coherent;
      } else {
        NewAttemptAgrees(db, step, db', a);
      }
    }
    hide *;
  }

  lemma NewAttemptAgrees(db: Db, step: Step, db': Db, a: AttemptId)
    requires WellFormed(db) && Consistent(db) && Next(db, step, db') && a in db'.attempts && a !in db.attempts
    requires WellFormed(db')
    ensures Agrees(db'.TaskOf(a), db'.attempts[a])
  {
    NextAttempts(db, step, db', a);
    StepsRows(db, step, db');
    hide Next, Numbered, WellFormed;
  }

  lemma KeepsNumbers(db: Db, step: Step, db': Db)
    requires WellFormed(db) && Consistent(db) && Next(db, step, db')
    ensures Numbered(db')
  {
    forall t, n | t in db'.tasks && 1 <= n <= db'.tasks[t].attemptCount
      ensures Held(db', t, n)
    {
      hide Next, WellFormed, AttemptUnder, TaskUnder, Agrees;
      StepsRows(db, step, db');
      if t in db.tasks {
        TaskCounts(db, step, db', t);
        if n <= db.tasks[t].attemptCount {
          assert Held(db, t, n);
          var a :| HasNumber(db, t, n, a);
          NextAttempts(db, step, db', a);
          assert HasNumber(db', t, n, a);
        } else {
          NextAttempts(db, step, db', step.attempt);
          assert HasNumber(db', t, n, step.attempt);
        }
      }
    }
    hide Next, WellFormed, Consistent;
  }

  /** A coherent step leaves a task without attempts as it is, unless it dispatches it. */
  lemma StaysNew(db: Db, step: Step, db': Db, t: TaskId)
    requires WellFormed(db) && Consistent(db) && Next(db, step, db') && Coherent(db, step)
    requires t in db.tasks && t in db'.tasks && db.tasks[t].attemptCount == db'.tasks[t].attemptCount == 0
    ensures db'.tasks[t] == NEW_TASK
  {
    assert forall a :: a in db.attempts ==> db.attempts[a].taskId != t;
    if Closes(step) {
      var _ := TaskCloses(db, step, db', t);
    } else {
      TaskSteps(db, step, db', t);
      assert step.Update? || step.Hangup? ==> TargetOf(db, step.task, step.target);
    }
    hide Next, Agrees, Numbered, TaskAfter, WellFormed, RecordOutcome, StatusUpdatedTask, HungUpTask, Closes;
    hide UpdateTimesMatch, HangupTimesMatch;
  }

  lemma KeepsNewTasks(db: Db, step: Step, db': Db)
    requires WellFormed(db) && Consistent(db) && Next(db, step, db') && Coherent(db, step)
    ensures forall t :: t in db'.tasks && db'.tasks[t].attemptCount == 0 ==> db'.tasks[t] == NEW_TASK
  {
    forall t | t in db'.tasks && db'.tasks[t].attemptCount == 0
      ensures db'.tasks[t] == NEW_TASK
    {
      if t in db.tasks {
        TaskCounts(db, step, db', t);
        StaysNew(db, step, db', t);
      } else {
        StepsRows(db, step, db');
      }
      hide Next, AttemptUnder, TaskUnder, Consistent, WellFormed, Coherent;
    }
    hide *;
  }

  lemma KeepsConsistent(db: Db, step: Step, db': Db)
    requires WellFormed(db) && Consistent(db) && Next(db, step, db') && Coherent(db, step)
    ensures WellFormed(db') && Consistent(db')
  {
    KeepsAgreement(db, step, db');
    KeepsNumbers(db, step, db');
    KeepsNewTasks(db, step, db');
    hide Next, Agrees, Numbered, Coherent;
  }

  lemma LateFailureBreaks(db: Db, step: Step, db': Db)
    requires WellFormed(db) && Consistent(db) && Next(db, step, db') && step.Worker? && step.delivery.Fail?
    requires !Coherent(db, step) && WellFormed(db')
    ensures !Consistent(db')
  {
    var t := db.attempts[step.delivery.attempt].taskId;
    assert Held(db, t, db.tasks[t].attemptCount);
    var latest :| HasNumber(db, t, db.tasks[t].attemptCount, latest);
    InAgreement(db, latest);
    AttemptSteps(db, step, db', latest);
    TaskSteps(db, step, db', t);
    assert db'.tasks[t].status == Failed && db'.attempts[latest].status == Calling;
    assert !Agrees(db'.TaskOf(latest), db'.attempts[latest]);
    hide Next, WellFormed, Agrees, Numbered;
  }

  /** The latest attempt of a task that has one. */
  lemma LatestOf(db: Db, t: TaskId) returns (latest: AttemptId)
    requires WellFormed(db) && Consistent(db) && t in db.tasks && db.tasks[t].attemptCount > 0
    ensures latest in db.attempts && db.attempts[latest].taskId == t && LatestIn(db, latest)
    ensures Agrees(db.tasks[t], db.attempts[latest]) && db.attempts[latest].attemptNo >= 1
  {
    assert Held(db, t, db.tasks[t].attemptCount);
    latest :| HasNumber(db, t, db.tasks[t].attemptCount, latest);
    hide Agrees, Numbered;
  }

  lemma Disagrees(db: Db, t: TaskId, a: AttemptId)
    requires WellFormed(db) && a in db.attempts && db.attempts[a].taskId == t && t in db.tasks
    requires !Agrees(db.tasks[t], db.attempts[a])
    ensures !Consistent(db)
  {
    hide Agrees, Numbered;
  }

  lemma NoLongerNew(db: Db, t: TaskId)
    requires WellFormed(db) && t in db.tasks && db.tasks[t].attemptCount == 0 && db.tasks[t].status != Pending
    ensures !Consistent(db)
  {
    hide Agrees, Numbered;
  }

  lemma UpdateBreaks(db: Db, step: Step, db': Db)
    requires WellFormed(db) && Consistent(db) && Next(db, step, db') && step.Update? && !Coherent(db, step)
    requires WellFormed(db')
    ensures !Consistent(db')
  {
    var Update(t, target, read, next, now) := step;
    TaskSteps(db, step, db', t);
    if db.tasks[t].attemptCount == 0 {
      hide Next, WellFormed, Consistent, Coherent;
      NoLongerNew(db', t);
    } else {
      var latest := LatestOf(db, t);
      AttemptSteps(db, step, db', latest);
      KeepsIdentity(db, step, latest);
      hide Next, Consistent, WellFormed, Agrees, StatusUpdatedTask, StatusUpdatedAttempt, Allowed, UpdateTimesMatch;
      if target.Some? && target.value.0 == latest {
        UpdateAgrees(db.tasks[t], db.attempts[latest], read, target.value.1, next, now);
      } else {
        UpdateAgreesWithOthers(db.tasks[t], db.attempts[latest], read, next, now);
      }
      Disagrees(db', t, latest);
    }
  }

  lemma HangupBreaks(db: Db, step: Step, db': Db)
    requires WellFormed(db) && Consistent(db) && Next(db, step, db') && step.Hangup? && !Coherent(db, step)
    requires WellFormed(db')
    ensures !Consistent(db')
  {
    var Hangup(t, target, calledAtRead, now) := step;
    TaskSteps(db, step, db', t);
    if db.tasks[t].attemptCount == 0 {
      hide Next, WellFormed, Consistent, Coherent;
      NoLongerNew(db', t);
    } else {
      var latest := LatestOf(db, t);
      AttemptSteps(db, step, db', latest);
      KeepsIdentity(db, step, latest);
      hide Next, Consistent, WellFormed, Agrees, HungUpTask, HungUpAttempt, HangupTimesMatch;
      if target.Some? && target.value.0 == latest {
        HangupAgrees(db.tasks[t], db.attempts[latest], calledAtRead, target.value.1, now);
      } else {
        HangupAgreesWithOthers(db.tasks[t], db.attempts[latest], calledAtRead, now);
      }
      Disagrees(db', t, latest);
    }
  }

  /** A step of any writer keeps a consistent database consistent exactly if it is coherent. */
  lemma KeepsConsistentIff(db: Db, step: Step, db': Db)
    requires WellFormed(db) && Consistent(db) && Next(db, step, db')
    ensures WellFormed(db')
    ensures Consistent(db') <==> Coherent(db, step)
  {
    KeepsWellFormed(db, step, db');
    hide Next, Consistent, WellFormed, Coherent;
    if Coherent(db, step) {
      KeepsConsistent(db, step, db');
    } else {
      match step
      case Update(_, _, _, _, _) => UpdateBreaks(db, step, db');
      case Hangup(_, _, _, _) => HangupBreaks(db, step, db');
      case _ => LateFailureBreaks(db, step, db');
    }
  }

  lemma {:induction false} CoherentSoFar(dbs: seq<Db>, steps: seq<Step>, i: nat)
    requires IsRun(dbs, steps) && i < |dbs|
    requires forall k :: 0 <= k < i ==> Coherent(dbs[k], steps[k])
    ensures WellFormed(dbs[i]) && Consistent(dbs[i])
  {
    if i > 0 {
      CoherentSoFar(dbs, steps, i - 1);
      assert Next(dbs[i - 1], steps[i - 1], dbs[i]);
      KeepsConsistentIff(dbs[i - 1], steps[i - 1], dbs[i]);
      hide Next, Consistent, WellFormed, Coherent;
    }
  }

  lemma RunsAreWellFormed(dbs: seq<Db>, steps: seq<Step>, i: nat)
    requires IsRun(dbs, steps) && i < |dbs|
    ensures WellFormed(dbs[i])
  {
    if i > 0 {
      StepAt(dbs, steps, i - 1);
      KeepsWellFormed(dbs[i - 1], steps[i - 1], dbs[i]);
    }
    hide Next, Counted, Distinct;
  }

  /** In every run of all the writers, every state is consistent exactly if every step is coherent. */
  lemma RunsAreConsistentIff(dbs: seq<Db>, steps: seq<Step>)
    requires IsRun(dbs, steps)
    ensures forall i :: 0 <= i < |dbs| ==> WellFormed(dbs[i])
    ensures (forall i :: 0 <= i < |dbs| ==> Consistent(dbs[i])) <==>
            (forall k :: 0 <= k < |steps| ==> Coherent(dbs[k], steps[k]))
  {
    hide WellFormed, Next, Consistent, Coherent;
    forall i | 0 <= i < |dbs|
      ensures WellFormed(dbs[i])
    {
      RunsAreWellFormed(dbs, steps, i);
    }
    if forall k :: 0 <= k < |steps| ==> Coherent(dbs[k], steps[k]) {
      forall i | 0 <= i < |dbs|
        ensures Consistent(dbs[i])
      {
        CoherentSoFar(dbs, steps, i);
      }
    } else {
      var k :| 0 <= k < |steps| && !Coherent(dbs[k], steps[k]);
      StepAt(dbs, steps, k);
      hide IsRun;
      if Consistent(dbs[k]) {
        KeepsConsistentIff(dbs[k], steps[k], dbs[k + 1]);
      }
    }
  }

  /** In every run of core steps, every state is consistent. */
  lemma CoreRunsAreConsistent(dbs: seq<Db>, steps: seq<Step>, i: nat)
    requires IsRun(dbs, steps) && i < |dbs|
    requires forall k :: 0 <= k < |steps| ==> Core(dbs[k], steps[k])
    ensures WellFormed(dbs[i]) && Consistent(dbs[i])
  {
    RunLength(dbs, steps);
    forall k | 0 <= k < i
      ensures Coherent(dbs[k], steps[k])
    {
      assert Core(dbs[k], steps[k]);
    }
    CoherentSoFar(dbs, steps, i);
    hide *;
  }

  lemma RunLength(dbs: seq<Db>, steps: seq<Step>)
    requires IsRun(dbs, steps)
    ensures |dbs| == |steps| + 1
  {
    hide WellFormed, Next;
  }

  /** A dispatch that fails for good keeps a consistent database consistent exactly if its attempt is the
    * latest or its task is not calling: the write to the task asks for the status only. */
  lemma LateFailureIff(db: Db, step: Step, db': Db)
    requires WellFormed(db) && Consistent(db) && Next(db, step, db') && step.Worker? && step.delivery.Fail?
    ensures WellFormed(db')
    ensures Consistent(db') <==>
      LatestIn(db, step.delivery.attempt) || db.TaskOf(step.delivery.attempt).status != Calling
  {
    KeepsConsistentIff(db, step, db');
    hide Consistent, WellFormed;
  }

  /** What a status update or a local hangup read is still so. */
  predicate ReadsAreCurrent(db: Db, step: Step) {
    && (step.Update? || step.Hangup?) && step.task in db.tasks && TargetOf(db, step.task, step.target)
    && (step.target.Some? ==> step.target.value.1 == db.attempts[step.target.value.0])
    && (if step.Update? then step.read.calledAt else step.calledAtRead) == db.tasks[step.task].calledAt
  }

  /** A status update or a local hangup whose reads are still current only has to name the latest attempt. */
  lemma CurrentReadsAreCoherentIff(db: Db, step: Step)
    requires WellFormed(db) && Consistent(db) && ReadsAreCurrent(db, step)
    ensures Coherent(db, step) <==>
      NamesLatest(db, step.target) ||
      !(if step.Update? then UpdateApplies(db, step.task, step.read, step.next) else HangupApplies(db, step.task))
  {
    if step.target.Some? {
      InAgreement(db, step.target.value.0);
    }
    hide Consistent, DurationSeconds, Distinct;
  }

  // ------------------------------------------------ when a task ends with its only attempt

  ghost predicate EndsWith(db: Db, a: AttemptId)
    requires WellFormed(db) && a in db.attempts
  {
    db.TaskOf(a).endedAt == db.attempts[a].endedAt
  }

  /** A dispatch that fails for good writes the end of the attempt and the end of the task from two readings
    * of the clock. */
  predicate SplitsEnd(db: Db, step: Step, a: AttemptId) {
    && step.Worker? && step.delivery.Fail? && step.delivery.attempt == a
    && a in db.attempts && db.attempts[a].status == Calling
    && step.delivery.at != step.delivery.taskAt
  }

  lemma EventEnds(t: Task, a: Attempt, ev: ProviderEvent)
    requires Agrees(t, a) && t.attemptCount == 1 && a.attemptNo == 1
    requires t.endedAt == a.endedAt || Terminal(a.status)
    ensures var t', a' := TaskAfter(t, a, ev), AttemptAfter(t, a, ev);
      && (t'.endedAt == a'.endedAt <==> t.endedAt == a.endedAt)
      && (t'.endedAt == a'.endedAt || Terminal(a'.status))
  {
    hide IsAnswer, IsHangup, IsRecording, IsProgress, IsBackgroundJob, FailsJob, HangupCause, JobFailureCause;
    hide NormalizeCause, IsFatal, AnswerEvidence, AnswerTime, JobFailure, DurationSeconds, Latest, Earliest;
    hide HangupStatus;
  }

  lemma ClosingEnds(db: Db, step: Step, db': Db, id: AttemptId)
    requires WellFormed(db) && Next(db, step, db') && Closes(step) && id in db.attempts && id in db'.attempts
    requires Agrees(db.TaskOf(id), db.attempts[id]) && db.TaskOf(id).attemptCount == 1
    requires EndsWith(db, id) || Terminal(db.attempts[id].status)
    requires db.attempts[id].taskId in db'.tasks
    ensures var t', a' := db'.tasks[db.attempts[id].taskId], db'.attempts[id];
      && (t'.endedAt == a'.endedAt <==> EndsWith(db, id))
      && (t'.endedAt == a'.endedAt || Terminal(a'.status))
  {
    hide Next, AttemptUnder, ClosesAt, RowsStep, Closes, DurationSeconds;
    AttemptSteps(db, step, db', id);
    ClosingLeavesOrCloses(db, step, id);
    var decider := TaskCloses(db, step, db', db.attempts[id].taskId);
    if decider.None? {
      assert !Decides(db, db'.attempts, id);
    } else {
      assert decider.value == id;
    }
  }

  lemma OnlyAttemptEnds(db: Db, step: Step, db': Db, id: AttemptId)
    requires WellFormed(db) && Consistent(db) && Next(db, step, db') && Core(db, step)
    requires id in db.attempts && db.TaskOf(id).attemptCount == 1
    requires EndsWith(db, id) || Terminal(db.attempts[id].status)
    requires WellFormed(db') && id in db'.attempts && db'.attempts[id].taskId == db.attempts[id].taskId
    requires db'.TaskOf(id).attemptCount == 1
    ensures EndsWith(db', id) <==> EndsWith(db, id) && !SplitsEnd(db, step, id)
    ensures EndsWith(db', id) || Terminal(db'.attempts[id].status)
  {
    InAgreement(db, id);
    if Closes(step) {
      ClosingEnds(db, step, db', id);
      hide Next, Consistent, WellFormed, Agrees;
    } else {
      AttemptSteps(db, step, db', id);
      TaskSteps(db, step, db', db.attempts[id].taskId);
      hide Next, Consistent, AttemptUnder, TaskUnder;
      if step.Event? {
        OnlyItsEvents(db, step, id);
        EventEnds(db.TaskOf(id), db.attempts[id], step.ev);
      } else {
        OthersEnd(db, step, id);
      }
      hide WellFormed, Agrees, AttemptAfter, TaskAfter;
    }
  }

  lemma OthersEnd(db: Db, step: Step, id: AttemptId)
    requires WellFormed(db) && id in db.attempts && db.TaskOf(id).attemptCount == 1
    requires Core(db, step) && !Closes(step) && !step.Event?
    requires step.Worker? ==> step.delivery.NoChange? || step.delivery.attempt in db.attempts
    requires Agrees(db.TaskOf(id), db.attempts[id]) && (EndsWith(db, id) || Terminal(db.attempts[id].status))
    ensures var t', a' := TaskUnder(db, step, db.attempts[id].taskId), AttemptUnder(db, step, id);
      && (t'.endedAt == a'.endedAt <==> EndsWith(db, id) && !SplitsEnd(db, step, id))
      && (t'.endedAt == a'.endedAt || Terminal(a'.status))
  {
    assert forall e :: e in db.attempts && db.attempts[e].taskId == db.attempts[id].taskId ==> e == id;
    hide WellFormed;
  }

  lemma OnlyItsEvents(db: Db, step: Step, id: AttemptId)
    requires WellFormed(db) && step.Event? && id in db.attempts && db.TaskOf(id).attemptCount == 1
    ensures var t, a := db.TaskOf(id), db.attempts[id];
      if step.attempt == id && RecordOutcome(db, id, step.ev) == Ok(Applied)
      then
        && AttemptUnder(db, step, id) == AttemptAfter(t, a, step.ev)
        && TaskUnder(db, step, a.taskId) == TaskAfter(t, a, step.ev)
      else AttemptUnder(db, step, id) == a && TaskUnder(db, step, a.taskId) == t
  {
    hide AttemptAfter, TaskAfter;
    assert forall e :: e in db.attempts && db.attempts[e].taskId == db.attempts[id].taskId ==> e == id;
  }

  lemma StepAt(dbs: seq<Db>, steps: seq<Step>, i: nat)
    requires IsRun(dbs, steps) && i < |steps|
    ensures WellFormed(dbs[i]) && Next(dbs[i], steps[i], dbs[i + 1])
  {
    assert Next(dbs[i], steps[i], dbs[i + 1]);
    hide WellFormed, Next;
  }

  lemma {:induction false} AttemptsStay(dbs: seq<Db>, steps: seq<Step>, i: nat, k: nat, a: AttemptId)
    requires IsRun(dbs, steps) && i <= k < |dbs| && a in dbs[i].attempts
    ensures a in dbs[k].attempts
    decreases k - i
  {
    hide Next, WellFormed, AttemptUnder;
    if i < k {
      AttemptsStay(dbs, steps, i, k - 1, a);
      StepAt(dbs, steps, k - 1);
      hide IsRun;
      AttemptSteps(dbs[k - 1], steps[k - 1], dbs[k], a);
    }
  }

  lemma CountBefore(db: Db, step: Step, db': Db, a: AttemptId)
    requires WellFormed(db) && Next(db, step, db') && WellFormed(db') && a in db.attempts && a in db'.attempts
    ensures db'.attempts[a].taskId == db.attempts[a].taskId
    ensures db'.TaskOf(a).attemptCount == 1 ==> db.TaskOf(a).attemptCount == 1
  {
    NextAttempts(db, step, db', a);
    TaskCounts(db, step, db', db.attempts[a].taskId);
    hide Next;
  }

  lemma NewAttemptEnds(db: Db, step: Step, db': Db, a: AttemptId)
    requires WellFormed(db) && Consistent(db) && Next(db, step, db') && WellFormed(db')
    requires a in db'.attempts && a !in db.attempts && db'.TaskOf(a).attemptCount == 1
    ensures EndsWith(db', a)
  {
    NextAttempts(db, step, db', a);
    TaskSteps(db, step, db', step.task);
    hide Next, WellFormed, Numbered, Agrees;
  }

  lemma NotThereNotSplit(dbs: seq<Db>, steps: seq<Step>, i: nat, a: AttemptId)
    requires IsRun(dbs, steps) && i < |steps| && a !in dbs[i].attempts
    ensures forall k :: 0 <= k <= i ==> !SplitsEnd(dbs[k], steps[k], a)
  {
    forall k | 0 <= k <= i
      ensures !SplitsEnd(dbs[k], steps[k], a)
    {
      if a in dbs[k].attempts {
        AttemptsStay(dbs, steps, k, i, a);
      }
    }
    hide *;
  }

  /** In every core run, a task ends when its only attempt does, unless a dispatch of that attempt failed for
    * good at two different readings of the clock; then it does not. */
  lemma {:induction false} OnlyAttemptEndsTogetherIff(dbs: seq<Db>, steps: seq<Step>, i: nat, a: AttemptId)
    requires IsRun(dbs, steps) && i < |dbs|
    requires forall k :: 0 <= k < |steps| ==> Core(dbs[k], steps[k])
    requires a in dbs[i].attempts && WellFormed(dbs[i]) && dbs[i].TaskOf(a).attemptCount == 1
    ensures EndsWith(dbs[i], a) <==> forall k :: 0 <= k < i ==> !SplitsEnd(dbs[k], steps[k], a)
    ensures EndsWith(dbs[i], a) || Terminal(dbs[i].attempts[a].status)
  {
    hide WellFormed, Next, Consistent, Core, EndsWith, SplitsEnd;
    if i > 0 {
      CoreRunsAreConsistent(dbs, steps, i - 1);
      StepAt(dbs, steps, i - 1);
      hide IsRun;
      assert Core(dbs[i - 1], steps[i - 1]);
      if a in dbs[i - 1].attempts {
        CountBefore(dbs[i - 1], steps[i - 1], dbs[i], a);
        OnlyAttemptEndsTogetherIff(dbs, steps, i - 1, a);
        OnlyAttemptEnds(dbs[i - 1], steps[i - 1], dbs[i], a);
      } else {
        NewAttemptEnds(dbs[i - 1], steps[i - 1], dbs[i], a);
        NotThereNotSplit(dbs, steps, i - 1, a);
      }
    }
  }
}
