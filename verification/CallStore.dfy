/** The task service: an object whose transactions update the rows of tasks and attempts in place. */
module CallStore {
  import opened Options
  import opened CallRows
  import opened ProviderEvents
  import opened CallDb

  datatype ServiceError = TaskNotFound | IllegalTransition | AlreadyClaimed

  class TasksService {
    var tasks: map<TaskId, Task>
    var attempts: map<AttemptId, Attempt>
    var recorded: map<EventKey, AttemptId>
    var witnessed: set<AttemptId>
    var outbox: map<AttemptId, OutboxRow>

    function Rows(): Db
      reads this
    {
      Db(tasks, attempts, recorded, witnessed, outbox)
    }

    constructor ()
      ensures Rows() == EMPTY
    {
      tasks, attempts, recorded, witnessed, outbox := map[], map[], map[], {}, map[];
    }

    /** Ids are fresh random UUIDs. */
    method Create(id: TaskId)
      requires WellFormed(Rows()) && id !in tasks
      modifies this`tasks
      ensures Rows() == old(Rows()).PutTask(id, NEW_TASK) && WellFormed(Rows())
    {
      tasks := tasks[id := NEW_TASK];
    }

    /** `expected` is the status that was read before the transaction. */
    method Dispatch(id: TaskId, expected: Status, attemptId: AttemptId, channel: Channel, now: Time, startedAt: Time)
      returns (r: Result<AttemptId, ServiceError>)
      requires WellFormed(Rows()) && attemptId !in attempts
      modifies this
      ensures r.Ok? <==> old(Claims(Rows(), id, expected))
      ensures Rows() == if r.Ok? then Dispatched(old(Rows()), id, attemptId, channel, now, startedAt) else old(Rows())
      ensures WellFormed(Rows())
    {
      hide WellFormed, NewAttempt;
      if !Allowed(expected, Calling) {
        return Err(IllegalTransition);
      }
      if id !in tasks || tasks[id].status != expected {
        return Err(AlreadyClaimed);
      }
      ghost var before := Rows();
      tasks := tasks[id := tasks[id].(status := Calling, attemptCount := tasks[id].attemptCount + 1)];
      attempts := attempts[attemptId := NewAttempt(id, tasks[id].attemptCount, channel, now, startedAt)];
      if channel != Web {
        outbox := outbox[attemptId := OutboxRow(RowPending, 0, None, None)];
      }
      assert Rows() == Dispatched(before, id, attemptId, channel, now, startedAt);
      DispatchKeepsConstraints(before, id, attemptId, channel, now, startedAt);
      hide *;
      r := Ok(attemptId);
    }

    method RecordProviderCallEvent(id: AttemptId, ev: ProviderEvent) returns (r: Result<Recording, RecordError>)
      requires WellFormed(Rows())
      modifies this
      ensures r == RecordOutcome(old(Rows()), id, ev)
      ensures Rows() == RecordEvent(old(Rows()), id, ev)
      ensures WellFormed(Rows())
    {
      if id !in attempts {
        return Err(NotFound);
      }
      if ev.id.Some? {
        var key := EventKey(ev.provider, ev.id.value);
        if key in recorded {
          return if recorded[key] == id then Ok(Duplicate) else Err(Conflict);
        }
      }
      hide AttemptAfter, TaskAfter, WellFormed;
      var before := attempts[id];
      assert before.taskId in tasks by {
        EventParent(Rows(), id);
      }
      var task, attempt := EventUpdates(tasks[before.taskId], before, ev);
      tasks := tasks[before.taskId := task];
      attempts := attempts[id := attempt];
      if ev.id.Some? {
        recorded := recorded[EventKey(ev.provider, ev.id.value) := id];
      }
      witnessed := witnessed + {id};
      assert Rows() == RecordEvent(old(Rows()), id, ev);
      EventKeepsConstraints(old(Rows()), id, ev);
      hide *;
      r := Ok(Applied);
    }

    /** Reconciles the attempts with the channels that are really active. The attempts are taken in any
      * order, each with the task as the query read it before the loop. */
    method RecordProviderActiveSnapshot(s: Snapshot, graceMs: nat)
      requires WellFormed(Rows())
      modifies this`tasks, this`attempts
      ensures SnapshotEffect(old(Rows()), s, graceMs, Rows())
      ensures WellFormed(Rows())
    {
      ghost var db := Rows();
      var found, parents := attempts, tasks;
      var remaining := set a | a in found && found[a].channel == s.channel && Active(found[a].status);
      ghost var target := SnapshotAttempts(found, s, graceMs);
      RowsAre(db);
      hide *;
      SnapshotStart(db, s, graceMs, remaining);
      while remaining != {}
        invariant remaining <= found.Keys
        invariant forall a :: a in remaining ==> found[a].channel == s.channel && Active(found[a].status)
        invariant PartlyClosed(db, target, s.at, remaining, attempts, tasks)
        decreases remaining
      {
        var id :| id in remaining;
        var row := SnapshotRow(id, found[id], s, graceMs);
        SnapshotTarget(found, s, graceMs, id);
        if row.Some? {
          WriteClosing(id, row.value, found[id], parents, s.at, db, target, remaining);
        } else {
          PassOver(db, target, s.at, remaining, attempts, tasks, id);
        }
        remaining := remaining - {id};
      }
      SnapshotDone(db, s, graceMs, attempts, tasks);
      RowsAre(db);
    }

    /** Closes the calls that have been running for too long. */
    method ReapStaleActiveCalls(now: Time, timeouts: Timeouts)
      requires WellFormed(Rows())
      modifies this`tasks, this`attempts
      ensures ReapEffect(old(Rows()), now, timeouts, Rows())
      ensures WellFormed(Rows())
    {
      ghost var db := Rows();
      var found, parents := attempts, tasks;
      var remaining := set a | a in found && Prefilter(found[a], now, timeouts);
      ghost var target := ReapAttempts(found, now, timeouts);
      RowsAre(db);
      hide *;
      ReapStart(db, now, timeouts, remaining);
      while remaining != {}
        invariant remaining <= found.Keys
        invariant forall a :: a in remaining ==> Prefilter(found[a], now, timeouts)
        invariant PartlyClosed(db, target, now, remaining, attempts, tasks)
        decreases remaining
      {
        var id :| id in remaining;
        PrefilterActive(found[id], now, timeouts);
        var row := ReapRow(found[id], now, timeouts);
        ReapTarget(found, now, timeouts, id);
        if row.Some? {
          WriteClosing(id, row.value, found[id], parents, now, db, target, remaining);
        } else {
          PassOver(db, target, now, remaining, attempts, tasks, id);
        }
        remaining := remaining - {id};
      }
      ReapDone(db, now, timeouts, attempts, tasks);
      RowsAre(db);
    }

    /** Writes one attempt of such a loop, and the end of its task if that ends with it. */
    method WriteClosing(id: AttemptId, row: Attempt, before: Attempt, parents: map<TaskId, Task>, at: Time,
                        ghost db: Db, ghost target: map<AttemptId, Attempt>, ghost remaining: set<AttemptId>)
      requires WellFormed(db) && target.Keys == db.attempts.Keys
      requires PartlyClosed(db, target, at, remaining, attempts, tasks)
      requires id in remaining && id in db.attempts && before == db.attempts[id] && Active(before.status)
      requires row == target[id] && parents == db.tasks
      modifies this`tasks, this`attempts
      ensures PartlyClosed(db, target, at, remaining - {id}, attempts, tasks)
    {
      WriteOne(db, target, at, remaining, attempts, tasks, id);
      WhatDecides(db, target, id);
      hide *;
      attempts := attempts[id := row];
      var parent := parents[before.taskId];
      if Terminal(row.status) && parent.attemptCount == before.attemptNo && !Terminal(parent.status) {
        tasks := tasks[before.taskId := CloseTask(parent, row.status, at)];
      }
    }

    lemma RowsAre(db: Db)
      requires db.recorded == recorded && db.witnessed == witnessed && db.outbox == outbox
      ensures Rows() == db.(attempts := attempts, tasks := tasks)
    {
    }

    /** The write of a status update, with what was read before it. */
    method UpdateStatus(id: TaskId, target: Option<(AttemptId, Attempt)>, read: StatusRead, next: Status, now: Time)
      returns (r: Result<bool, ServiceError>)
      requires WellFormed(Rows())
      requires target.Some? ==> target.value.0 in attempts && attempts[target.value.0].taskId == id
      modifies this`tasks, this`attempts
      ensures r == Ok(true) <==> old(UpdateApplies(Rows(), id, read, next))
      ensures Rows() == if r == Ok(true) then StatusUpdated(old(Rows()), id, target, read, next, now) else old(Rows())
      ensures WellFormed(Rows())
    {
      if id !in tasks {
        return Err(TaskNotFound);
      }
      if read.status == next {
        return Ok(false);
      }
      if !Allowed(read.status, next) {
        return Err(IllegalTransition);
      }
      var current := tasks[id].status;
      if current != read.status {
        if current != next && !Terminal(current) && !Allowed(current, next) {
          return Err(IllegalTransition);
        }
        return Ok(false);
      }
      StatusUpdateKeepsConstraints(Rows(), id, target, read, next, now);
      hide StatusUpdatedTask, StatusUpdatedAttempt, WellFormed;
      tasks := tasks[id := StatusUpdatedTask(tasks[id], read, next, now)];
      if target.Some? {
        var (a, attemptRead) := target.value;
        attempts := attempts[a := StatusUpdatedAttempt(attempts[a], attemptRead, next, now)];
      }
      assert Rows() == StatusUpdated(old(Rows()), id, target, read, next, now);
      hide *;
      r := Ok(true);
    }

    /** Ends a call locally: the task is completed unless it has ended already. */
    method FinalizeLocalHangup(id: TaskId, target: Option<(AttemptId, Attempt)>, calledAtRead: Option<Time>, now: Time)
      returns (applied: bool)
      requires WellFormed(Rows())
      requires target.Some? ==> target.value.0 in attempts && attempts[target.value.0].taskId == id
      modifies this`tasks, this`attempts
      ensures applied <==> old(HangupApplies(Rows(), id))
      ensures Rows() == if applied then HungUp(old(Rows()), id, target, calledAtRead, now) else old(Rows())
      ensures WellFormed(Rows())
    {
      if id !in tasks || Terminal(tasks[id].status) {
        return false;
      }
      var t := tasks[id];
      tasks := tasks[id := t.(status := Completed, endedAt := Some(now),
                              duration := DurationSeconds(calledAtRead, now).Or(t.duration))];
      if target.Some? {
        var (a, read) := target.value;
        var row := attempts[a];
        attempts := attempts[a := row.(
          status := Completed, endedAt := read.endedAt.Or(Some(now)),
          duration := DurationSeconds(read.answeredAt, now).Or(read.duration).Or(row.duration))];
      }
      KeepsConstraints(old(Rows()), Rows());
      applied := true;
    }
  }

  // ------------------------------------------------------- one row of each transaction

  /** The fields an event writes, worked out one after the other from the rows that were read. */
  method EventUpdates(parent: Task, before: Attempt, ev: ProviderEvent) returns (task: Task, attempt: Attempt)
    ensures task == TaskAfter(parent, before, ev)
    ensures attempt == AttemptAfter(parent, before, ev)
  {
    var latest := parent.attemptCount == before.attemptNo;
    attempt := NoteEvent(before, ev);
    task, attempt := JudgeEvent(parent, before, latest, attempt, ev);
    hide JudgedAttempt, JudgedTask, IsRecording;
    if IsRecording(ev.eventType) && ev.recordingUrl.Some? {
      attempt := attempt.(recordingUrl := ev.recordingUrl);
      if latest {
        task := task.(recordingUrl := ev.recordingUrl);
      }
    }
  }

  method NoteEvent(before: Attempt, ev: ProviderEvent) returns (attempt: Attempt)
    ensures attempt == Noted(before, ev)
  {
    hide IsProgress;
    attempt := before;
    if before.lastEventAt.None? || ev.at > before.lastEventAt.value {
      attempt := attempt.(lastEventAt := Some(ev.at));
    }
    if before.missingCount > 0 && (before.lastSnapshotAt.None? || ev.at >= before.lastSnapshotAt.value) {
      attempt := attempt.(missingCount := 0);
    }
    if IsProgress(ev.eventType) && (before.ringingAt.None? || ev.at < before.ringingAt.value) {
      attempt := attempt.(ringingAt := Some(ev.at));
    }
  }

  method JudgeEvent(parent: Task, before: Attempt, latest: bool, noted: Attempt, ev: ProviderEvent)
    returns (task: Task, attempt: Attempt)
    requires latest == IsLatest(parent, before) && noted == Noted(before, ev)
    ensures task == JudgedTask(parent, before, ev)
    ensures attempt == JudgedAttempt(parent, before, ev)
  {
    KindsAreDisjoint(ev.eventType);
    assert noted.answeredAt == before.answeredAt && noted.duration == before.duration
           && noted.hangupCause == before.hangupCause && noted.endedAt == before.endedAt;
    hide IsAnswer, IsHangup, IsRecording, IsProgress, IsBackgroundJob, Noted;
    hide NormalizeCause, IsFatal, TerminalStatus, AnswerEvidence, AnswerTime, JobFailure, DurationSeconds;
    attempt, task := noted, parent;
    if IsAnswer(ev.eventType) && !Terminal(before.status) {
      attempt := attempt.(status := InCall);
      if before.answeredAt.None? || ev.at < before.answeredAt.value {
        attempt := attempt.(answeredAt := Some(ev.at));
      }
      if latest && !Terminal(parent.status) {
        task := task.(status := InCall);
        if parent.calledAt.None? || ev.at < parent.calledAt.value {
          task := task.(calledAt := Some(ev.at));
        }
      }
    }
    var jobFailure := if IsBackgroundJob(ev.eventType) then JobFailure(ev.backgroundJobResult) else None;
    if jobFailure.Some? && !Terminal(before.status) {
      var cause := if IsFatal(ev.reportedCause) then ev.reportedCause else jobFailure;
      attempt := attempt.(status := Failed, endedAt := before.endedAt.Or(Some(ev.at)),
                          duration := DurationSeconds(before.answeredAt, ev.at).Or(before.duration),
                          hangupCause := cause);
      if latest && !Terminal(parent.status) {
        task := task.(status := Failed, endedAt := parent.endedAt.Or(Some(ev.at)),
                      duration := DurationSeconds(parent.calledAt, ev.at).Or(parent.duration));
      }
    }
    if IsHangup(ev.eventType) && !Terminal(before.status) {
      var cause := if IsFatal(before.hangupCause) then NormalizeCause(before.hangupCause) else ev.reportedCause;
      var direct := before.answeredAt.Some? || (latest && parent.calledAt.Some?);
      var answered := direct || AnswerEvidence(ev.raw);
      var next := TerminalStatus(cause, answered);
      attempt := attempt.(status := next, endedAt := before.endedAt.Or(Some(ev.at)));
      var backfilled := if !direct && answered then AnswerTime(ev.raw, before.startedAt, ev.at) else None;
      if backfilled.Some? {
        attempt := attempt.(answeredAt := backfilled);
        if latest && parent.calledAt.None? {
          task := task.(calledAt := backfilled);
        }
      }
      attempt := attempt.(duration := DurationSeconds(backfilled.Or(before.answeredAt), ev.at).Or(before.duration));
      if cause.Some? {
        attempt := attempt.(hangupCause := cause);
      }
      if latest && !Terminal(parent.status) {
        task := task.(status := next, endedAt := parent.endedAt.Or(Some(ev.at)),
                      duration := DurationSeconds(backfilled.Or(parent.calledAt), ev.at).Or(parent.duration));
      }
    }
  }

  lemma KindsAreDisjoint(eventType: string)
    ensures IsAnswer(eventType) ==> !IsHangup(eventType) && !IsBackgroundJob(eventType) && !IsRecording(eventType)
    ensures IsHangup(eventType) ==> !IsBackgroundJob(eventType) && !IsRecording(eventType) && !IsProgress(eventType)
    ensures IsBackgroundJob(eventType) ==> !IsRecording(eventType) && !IsProgress(eventType)
    ensures IsRecording(eventType) ==> !IsProgress(eventType)
    ensures IsAnswer(eventType) ==> !IsProgress(eventType)
  {
  }

  lemma EventKeepsIdentity(t: Task, a: Attempt, ev: ProviderEvent)
    ensures TaskAfter(t, a, ev).attemptCount == t.attemptCount
    ensures var a' := AttemptAfter(t, a, ev);
      a'.taskId == a.taskId && a'.attemptNo == a.attemptNo && a'.channel == a.channel
  {
  }

  lemma DispatchKeepsConstraints(db: Db, id: TaskId, attemptId: AttemptId, channel: Channel, now: Time,
                                 startedAt: Time)
    requires WellFormed(db) && id in db.tasks && attemptId !in db.attempts
    ensures WellFormed(Dispatched(db, id, attemptId, channel, now, startedAt))
  {
    DispatchKeepsDistinct(db, id, attemptId, channel, now, startedAt);
    hide Distinct;
  }

  lemma DispatchKeepsDistinct(db: Db, id: TaskId, attemptId: AttemptId, channel: Channel, now: Time, startedAt: Time)
    requires WellFormed(db) && id in db.tasks && attemptId !in db.attempts
    ensures Distinct(Dispatched(db, id, attemptId, channel, now, startedAt))
  {
  }

  lemma StatusUpdateKeepsConstraints(db: Db, id: TaskId, target: Option<(AttemptId, Attempt)>, read: StatusRead,
                                     next: Status, now: Time)
    requires WellFormed(db) && id in db.tasks && (target.Some? ==> target.value.0 in db.attempts)
    ensures WellFormed(StatusUpdated(db, id, target, read, next, now))
  {
    KeepsConstraints(db, StatusUpdated(db, id, target, read, next, now));
  }

  lemma EventParent(db: Db, id: AttemptId)
    requires WellFormed(db) && id in db.attempts
    ensures db.attempts[id].taskId in db.tasks
  {
  }

  lemma EventKeepsConstraints(db: Db, id: AttemptId, ev: ProviderEvent)
    requires WellFormed(db) && id in db.attempts
    ensures WellFormed(ApplyEvent(db, id, ev))
  {
    EventKeepsIdentity(db.TaskOf(id), db.attempts[id], ev);
    hide AttemptAfter, TaskAfter;
    KeepsConstraints(db, ApplyEvent(db, id, ev));
  }

  /** One attempt of the reconciliation loop: the row to write, if there is one. */
  method SnapshotRow(id: AttemptId, a: Attempt, s: Snapshot, graceMs: nat) returns (row: Option<Attempt>)
    requires a.channel == s.channel && Active(a.status)
    ensures row.GetOr(a) == SnapshotAttempt(id, a, s, graceMs)
  {
    if a.providerJobId.None?
       || a.lastSnapshotId == Some(s.id)
       || (a.lastSnapshotAt.Some? && s.at <= a.lastSnapshotAt.value) {
      return None;
    }
    var seen := a.(lastSnapshotId := Some(s.id), lastSnapshotAt := Some(s.at));
    if id in s.active {
      return Some(seen.(missingCount := 0));
    }
    if s.at - a.startedAt < graceMs {
      return Some(seen.(missingCount := 0));
    }
    seen := seen.(missingCount := a.missingCount + 1);
    if seen.missingCount < 2 {
      return Some(seen);
    }
    var existing := NormalizeCause(a.hangupCause);
    var status := if existing.Some? then TerminalStatus(existing, a.answeredAt.Some?)
                  else if a.answeredAt.Some? then Completed else Failed;
    row := Some(CloseAttempt(seen, status, s.at, existing.GetOr(EVENT_LOSS_RECONCILED)));
  }

  /** One attempt of the reaper's loop: the row to write, if it has timed out. */
  method ReapRow(a: Attempt, now: Time, timeouts: Timeouts) returns (row: Option<Attempt>)
    requires Prefilter(a, now, timeouts)
    ensures row.GetOr(a) == ReapAttempt(a, now, timeouts)
    ensures row.Some? ==> Terminal(row.value.status)
  {
    var inCall := a.status == InCall;
    var anchor := if inCall then a.answeredAt.GetOr(a.startedAt) else a.startedAt;
    var timeoutMs := if inCall then timeouts.inCallMs else timeouts.callingMs;
    if now - anchor < timeoutMs {
      return None;
    }
    var answered := a.answeredAt.Some? || inCall;
    var existing := NormalizeCause(a.hangupCause);
    var status := if existing.Some? then TerminalStatus(existing, answered)
                  else if answered then Completed else Failed;
    row := Some(CloseAttempt(a, status, now, existing.GetOr(STALE_CALL_REAPED)));
  }

  // ---------------------------------------------------------- the loops over attempts

  /** Rows keep their constraints as long as no row appears or moves. */
  lemma KeepsConstraints(db: Db, db': Db)
    requires WellFormed(db)
    requires db'.tasks.Keys == db.tasks.Keys && db'.attempts.Keys == db.attempts.Keys
    requires db'.outbox.Keys == db.outbox.Keys
    requires forall t :: t in db.tasks ==> db'.tasks[t].attemptCount == db.tasks[t].attemptCount
    requires forall a :: a in db.attempts ==>
      && db'.attempts[a].taskId == db.attempts[a].taskId
      && db'.attempts[a].attemptNo == db.attempts[a].attemptNo
      && db'.attempts[a].channel == db.attempts[a].channel
    ensures WellFormed(db')
  {
  }

  /** A loop that still has to look at `remaining`: the other attempts, and the tasks that they decide,
    * are as they will be. */
  ghost predicate PartlyClosed(db: Db, target: map<AttemptId, Attempt>, at: Time, remaining: set<AttemptId>,
                               attempts: map<AttemptId, Attempt>, tasks: map<TaskId, Task>)
    requires WellFormed(db) && target.Keys == db.attempts.Keys
  {
    && AttemptsSoFar(db, target, remaining, attempts)
    && TasksSoFar(db, target, at, db.attempts.Keys - remaining, tasks)
  }

  ghost predicate AttemptsSoFar(db: Db, target: map<AttemptId, Attempt>, remaining: set<AttemptId>,
                                attempts: map<AttemptId, Attempt>)
    requires target.Keys == db.attempts.Keys
  {
    && attempts.Keys == db.attempts.Keys
    && forall a :: a in db.attempts ==> attempts[a] == if a in remaining then db.attempts[a] else target[a]
  }

  ghost predicate TasksSoFar(db: Db, target: map<AttemptId, Attempt>, at: Time, done: set<AttemptId>,
                             tasks: map<TaskId, Task>)
    requires WellFormed(db) && target.Keys == db.attempts.Keys && done <= db.attempts.Keys
  {
    && tasks.Keys == db.tasks.Keys
    && (forall a :: a in done && Decides(db, target, a) ==>
          tasks[db.attempts[a].taskId] == CloseTask(db.TaskOf(a), target[a].status, at))
    && (forall t :: t in db.tasks && (forall a :: a in done && db.attempts[a].taskId == t ==> !Decides(db, target, a))
          ==> tasks[t] == db.tasks[t])
  }

  lemma SkipOne(db: Db, target: map<AttemptId, Attempt>, at: Time, done: set<AttemptId>,
                tasks: map<TaskId, Task>, id: AttemptId)
    requires WellFormed(db) && target.Keys == db.attempts.Keys && done <= db.attempts.Keys
    requires TasksSoFar(db, target, at, done, tasks)
    requires id in db.attempts && !Decides(db, target, id)
    ensures TasksSoFar(db, target, at, done + {id}, tasks)
  {
    hide Decides, CloseTask, WellFormed;
  }

  /** An attempt that stays as it is needs no write. */
  lemma PassOver(db: Db, target: map<AttemptId, Attempt>, at: Time, remaining: set<AttemptId>,
                 attempts: map<AttemptId, Attempt>, tasks: map<TaskId, Task>, id: AttemptId)
    requires WellFormed(db) && target.Keys == db.attempts.Keys
    requires PartlyClosed(db, target, at, remaining, attempts, tasks)
    requires id in remaining && id in db.attempts && target[id] == db.attempts[id]
    ensures PartlyClosed(db, target, at, remaining - {id}, attempts, tasks)
  {
    assert !Decides(db, target, id);
    var done := db.attempts.Keys - remaining;
    assert db.attempts.Keys - (remaining - {id}) == done + {id};
    SkipOne(db, target, at, done, tasks, id);
    hide TasksSoFar, Decides, WellFormed;
  }

  lemma OneDecides(db: Db, target: map<AttemptId, Attempt>, id: AttemptId, a: AttemptId)
    requires WellFormed(db) && target.Keys == db.attempts.Keys && id in db.attempts && a in db.attempts
    requires Decides(db, target, id) && Decides(db, target, a) && db.attempts[a].taskId == db.attempts[id].taskId
    ensures a == id
  {
  }

  /** Only the latest attempt of a task can decide it, so no other write of the loop is lost. */
  lemma DecideOne(db: Db, target: map<AttemptId, Attempt>, at: Time, done: set<AttemptId>,
                  tasks: map<TaskId, Task>, id: AttemptId)
    requires WellFormed(db) && target.Keys == db.attempts.Keys && done <= db.attempts.Keys
    requires TasksSoFar(db, target, at, done, tasks)
    requires id in db.attempts && Decides(db, target, id)
    ensures var t := db.attempts[id].taskId;
      TasksSoFar(db, target, at, done + {id}, tasks[t := CloseTask(db.tasks[t], target[id].status, at)])
  {
    var t := db.attempts[id].taskId;
    forall a | a in db.attempts && db.attempts[a].taskId == t && Decides(db, target, a)
      ensures a == id
    {
      OneDecides(db, target, id, a);
    }
    hide Decides, CloseTask, WellFormed;
  }

  lemma WriteAttempt(db: Db, target: map<AttemptId, Attempt>, remaining: set<AttemptId>,
                     attempts: map<AttemptId, Attempt>, id: AttemptId)
    requires target.Keys == db.attempts.Keys && AttemptsSoFar(db, target, remaining, attempts)
    requires id in remaining && id in db.attempts
    ensures AttemptsSoFar(db, target, remaining - {id}, attempts[id := target[id]])
  {
  }

  lemma WriteOne(db: Db, target: map<AttemptId, Attempt>, at: Time, remaining: set<AttemptId>,
                 attempts: map<AttemptId, Attempt>, tasks: map<TaskId, Task>, id: AttemptId)
    requires WellFormed(db) && target.Keys == db.attempts.Keys
    requires PartlyClosed(db, target, at, remaining, attempts, tasks)
    requires id in remaining && id in db.attempts
    ensures db.attempts[id].taskId in db.tasks
    ensures var t := db.attempts[id].taskId;
      PartlyClosed(db, target, at, remaining - {id}, attempts[id := target[id]],
                   if Decides(db, target, id) then tasks[t := CloseTask(db.tasks[t], target[id].status, at)] else tasks)
  {
    assert db.attempts[id].taskId in db.tasks;
    hide TasksSoFar, Decides, CloseTask, WellFormed;
    WriteAttempt(db, target, remaining, attempts, id);
    var done := db.attempts.Keys - remaining;
    assert db.attempts.Keys - (remaining - {id}) == done + {id};
    hide AttemptsSoFar;
    if Decides(db, target, id) {
      DecideOne(db, target, at, done, tasks, id);
    } else {
      SkipOne(db, target, at, done, tasks, id);
    }
  }

  lemma WhatDecides(db: Db, target: map<AttemptId, Attempt>, id: AttemptId)
    requires WellFormed(db) && target.Keys == db.attempts.Keys && id in db.attempts && Active(db.attempts[id].status)
    ensures Decides(db, target, id) <==>
      && Terminal(target[id].status)
      && db.TaskOf(id).attemptCount == db.attempts[id].attemptNo && !Terminal(db.TaskOf(id).status)
  {
  }

  lemma PrefilterActive(a: Attempt, now: Time, timeouts: Timeouts)
    requires Prefilter(a, now, timeouts)
    ensures Active(a.status)
  {
  }

  lemma SnapshotTarget(found: map<AttemptId, Attempt>, s: Snapshot, graceMs: nat, id: AttemptId)
    requires id in found
    ensures SnapshotAttempts(found, s, graceMs)[id] == SnapshotAttempt(id, found[id], s, graceMs)
  {
  }

  lemma ReapTarget(found: map<AttemptId, Attempt>, now: Time, timeouts: Timeouts, id: AttemptId)
    requires id in found
    ensures ReapAttempts(found, now, timeouts)[id] == ReapAttempt(found[id], now, timeouts)
  {
  }

  /** Before the loop: the attempts the query leaves out stay as they are. */
  lemma SnapshotStart(db: Db, s: Snapshot, graceMs: nat, remaining: set<AttemptId>)
    requires WellFormed(db)
    requires remaining ==
             set a | a in db.attempts && db.attempts[a].channel == s.channel && Active(db.attempts[a].status)
    ensures PartlyClosed(db, SnapshotAttempts(db.attempts, s, graceMs), s.at, remaining, db.attempts, db.tasks)
  {
    var target := SnapshotAttempts(db.attempts, s, graceMs);
    assert forall a :: a in db.attempts && a !in remaining ==> target[a] == db.attempts[a];
    hide SnapshotAttempts;
  }

  lemma ReapStart(db: Db, now: Time, timeouts: Timeouts, remaining: set<AttemptId>)
    requires WellFormed(db)
    requires remaining == set a | a in db.attempts && Prefilter(db.attempts[a], now, timeouts)
    ensures PartlyClosed(db, ReapAttempts(db.attempts, now, timeouts), now, remaining, db.attempts, db.tasks)
  {
    var target := ReapAttempts(db.attempts, now, timeouts);
    assert forall a :: a in db.attempts && a !in remaining ==> target[a] == db.attempts[a];
    hide ReapAttempts;
  }

  lemma SnapshotDone(db: Db, s: Snapshot, graceMs: nat, attempts: map<AttemptId, Attempt>, tasks: map<TaskId, Task>)
    requires WellFormed(db)
    requires PartlyClosed(db, SnapshotAttempts(db.attempts, s, graceMs), s.at, {}, attempts, tasks)
    ensures SnapshotEffect(db, s, graceMs, db.(attempts := attempts, tasks := tasks))
    ensures WellFormed(db.(attempts := attempts, tasks := tasks))
  {
    AllClosed(db, SnapshotAttempts(db.attempts, s, graceMs), s.at, attempts, tasks);
    SnapshotKeepsIdentity(db.attempts, s, graceMs);
    hide PartlyClosed, Decides, CloseTask;
    KeepsConstraints(db, db.(attempts := attempts, tasks := tasks));
  }

  lemma ReapDone(db: Db, now: Time, timeouts: Timeouts, attempts: map<AttemptId, Attempt>, tasks: map<TaskId, Task>)
    requires WellFormed(db)
    requires PartlyClosed(db, ReapAttempts(db.attempts, now, timeouts), now, {}, attempts, tasks)
    ensures ReapEffect(db, now, timeouts, db.(attempts := attempts, tasks := tasks))
    ensures WellFormed(db.(attempts := attempts, tasks := tasks))
  {
    AllClosed(db, ReapAttempts(db.attempts, now, timeouts), now, attempts, tasks);
    ReapKeepsIdentity(db.attempts, now, timeouts);
    hide PartlyClosed, Decides, CloseTask;
    KeepsConstraints(db, db.(attempts := attempts, tasks := tasks));
  }

  lemma SnapshotKeepsIdentity(found: map<AttemptId, Attempt>, s: Snapshot, graceMs: nat)
    ensures forall a :: a in found ==> var row := SnapshotAttempts(found, s, graceMs)[a];
      row.taskId == found[a].taskId && row.attemptNo == found[a].attemptNo && row.channel == found[a].channel
  {
  }

  lemma ReapKeepsIdentity(found: map<AttemptId, Attempt>, now: Time, timeouts: Timeouts)
    ensures forall a :: a in found ==> var row := ReapAttempts(found, now, timeouts)[a];
      row.taskId == found[a].taskId && row.attemptNo == found[a].attemptNo && row.channel == found[a].channel
  {
  }

  lemma AllClosed(db: Db, target: map<AttemptId, Attempt>, at: Time,
                  attempts: map<AttemptId, Attempt>, tasks: map<TaskId, Task>)
    requires WellFormed(db) && target.Keys == db.attempts.Keys
    requires PartlyClosed(db, target, at, {}, attempts, tasks)
    ensures attempts == target && TasksFollow(db, attempts, at, tasks)
    ensures forall t :: t in db.tasks ==> tasks[t].attemptCount == db.tasks[t].attemptCount
  {
    assert attempts == target;
    forall t | t in db.tasks
      ensures tasks[t].attemptCount == db.tasks[t].attemptCount
    {
      if a :| a in db.attempts && db.attempts[a].taskId == t && Decides(db, target, a) {
        assert tasks[t] == CloseTask(db.TaskOf(a), target[a].status, at);
      }
    }
  }
}
