/** The database of calls: its rows, its constraints, and what each transaction writes. */
module CallDb {
  import opened Options
  import opened CallRows
  import opened ProviderEvents

  type WorkerId = string

  datatype RowStatus = RowPending | RowProcessing | RowProcessed | RowFailed

  /** A dispatch request. Its deduplication key is unique and names the attempt, so rows are keyed by
    * attempt. */
  datatype OutboxRow = OutboxRow(status: RowStatus, attempts: nat, lockedBy: Option<WorkerId>, lockedAt: Option<Time>)

  /** The unique key of a recorded provider event. */
  datatype EventKey = EventKey(provider: string, id: string)

  /** `witnessed` holds the attempts for which some provider event has been stored. */
  datatype Db = Db(
    tasks: map<TaskId, Task>,
    attempts: map<AttemptId, Attempt>,
    recorded: map<EventKey, AttemptId>,
    witnessed: set<AttemptId>,
    outbox: map<AttemptId, OutboxRow>)
  {
    function TaskOf(a: AttemptId): Task
      requires a in attempts && attempts[a].taskId in tasks
    {
      tasks[attempts[a].taskId]
    }

    function PutTask(id: TaskId, t: Task): Db {
      this.(tasks := tasks[id := t])
    }

    function PutAttempt(id: AttemptId, a: Attempt): Db {
      this.(attempts := attempts[id := a])
    }
  }

  const EMPTY := Db(map[], map[], map[], {}, map[])

  /** Every attempt belongs to a task, which has counted it. */
  ghost predicate Counted(db: Db) {
    forall a :: a in db.attempts ==>
      db.attempts[a].taskId in db.tasks && 1 <= db.attempts[a].attemptNo <= db.TaskOf(a).attemptCount
  }

  /** No two attempts of a task have the same number. */
  ghost predicate Distinct(db: Db) {
    forall a, b :: a in db.attempts && b in db.attempts
      && db.attempts[a].taskId == db.attempts[b].taskId && db.attempts[a].attemptNo == db.attempts[b].attemptNo
      ==> a == b
  }

  ghost predicate WellFormed(db: Db) {
    && Counted(db)
    && Distinct(db)
    && (forall a :: a in db.outbox ==> a in db.attempts && db.attempts[a].channel == FreeSwitch)
  }

  predicate LatestIn(db: Db, a: AttemptId)
    requires a in db.attempts && db.attempts[a].taskId in db.tasks
  {
    IsLatest(db.TaskOf(a), db.attempts[a])
  }

  // ------------------------------------------------------------------- dispatch

  /** The dispatch that read status `expected` still finds it when it claims the task. */
  predicate Claims(db: Db, id: TaskId, expected: Status) {
    Allowed(expected, Calling) && id in db.tasks && db.tasks[id].status == expected
  }

  function Dispatched(db: Db, id: TaskId, attemptId: AttemptId, channel: Channel, now: Time, startedAt: Time): Db
    requires id in db.tasks
  {
    var t := db.tasks[id];
    var t' := t.(status := Calling, attemptCount := t.attemptCount + 1);
    db.(tasks := db.tasks[id := t'],
        attempts := db.attempts[attemptId := NewAttempt(id, t'.attemptCount, channel, now, startedAt)],
        outbox := if channel.Web? then db.outbox else db.outbox[attemptId := OutboxRow(RowPending, 0, None, None)])
  }

  // ------------------------------------------------------------- provider events

  datatype Recording = Applied | Duplicate

  datatype RecordError = NotFound | Conflict

  function RecordOutcome(db: Db, a: AttemptId, ev: ProviderEvent): Result<Recording, RecordError> {
    if a !in db.attempts || db.attempts[a].taskId !in db.tasks then Err(NotFound)
    else if ev.id.None? then Ok(Applied)
    else
      var key := EventKey(ev.provider, ev.id.value);
      if key !in db.recorded then Ok(Applied)
      else if db.recorded[key] == a then Ok(Duplicate)
      else Err(Conflict)
  }

  function ApplyEvent(db: Db, a: AttemptId, ev: ProviderEvent): Db
    requires a in db.attempts && db.attempts[a].taskId in db.tasks
  {
    var t, row := db.TaskOf(a), db.attempts[a];
    db.(tasks := db.tasks[row.taskId := TaskAfter(t, row, ev)],
        attempts := db.attempts[a := AttemptAfter(t, row, ev)],
        recorded := if ev.id.Some? then db.recorded[EventKey(ev.provider, ev.id.value) := a] else db.recorded,
        witnessed := db.witnessed + {a})
  }

  function RecordEvent(db: Db, a: AttemptId, ev: ProviderEvent): Db {
    if RecordOutcome(db, a, ev) == Ok(Applied) then ApplyEvent(db, a, ev) else db
  }

  // ------------------------------------------------- closing several attempts at once

  /** Attempt `a` ends here, and its end is also the end of its task. */
  predicate Decides(db: Db, attempts': map<AttemptId, Attempt>, a: AttemptId)
    requires a in db.attempts && a in attempts' && db.attempts[a].taskId in db.tasks
  {
    && !Terminal(db.attempts[a].status) && Terminal(attempts'[a].status)
    && LatestIn(db, a) && !Terminal(db.TaskOf(a).status)
  }

  /** A task is closed with its latest attempt, and is left alone otherwise. */
  ghost predicate TasksFollow(db: Db, attempts': map<AttemptId, Attempt>, at: Time, tasks': map<TaskId, Task>)
    requires WellFormed(db) && attempts'.Keys == db.attempts.Keys
  {
    && tasks'.Keys == db.tasks.Keys
    && (forall a :: a in db.attempts && Decides(db, attempts', a) ==>
          tasks'[db.attempts[a].taskId] == CloseTask(db.TaskOf(a), attempts'[a].status, at))
    && (forall t ::
          t in db.tasks && (forall a :: a in db.attempts && db.attempts[a].taskId == t ==> !Decides(db, attempts', a))
          ==> tasks'[t] == db.tasks[t])
  }

  // ------------------------------------------------------------------- snapshots

  datatype Snapshot = Snapshot(id: string, at: Time, channel: Channel, active: set<AttemptId>)

  /** The snapshot is about this attempt, and newer than the last one that was counted. */
  predicate Counts(a: Attempt, s: Snapshot) {
    && a.channel == s.channel && Active(a.status)
    && a.providerJobId.Some?
    && a.lastSnapshotId != Some(s.id)
    && (a.lastSnapshotAt.Some? ==> a.lastSnapshotAt.value < s.at)
  }

  /** The snapshot counts and the attempt, past the grace period, is not in it. */
  predicate Misses(id: AttemptId, a: Attempt, s: Snapshot, graceMs: nat) {
    Counts(a, s) && id !in s.active && s.at - a.startedAt >= graceMs
  }

  function SnapshotAttempt(id: AttemptId, a: Attempt, s: Snapshot, graceMs: nat): Attempt {
    if !Counts(a, s) then a else
    var seen := a.(lastSnapshotId := Some(s.id), lastSnapshotAt := Some(s.at));
    if !Misses(id, a, s, graceMs) then seen.(missingCount := 0)
    else if a.missingCount + 1 < 2 then seen.(missingCount := a.missingCount + 1)
    else
      var existing := NormalizeCause(a.hangupCause);
      CloseAttempt(seen.(missingCount := a.missingCount + 1),
                   ClosingStatus(existing, a.answeredAt.Some?), s.at, existing.GetOr(EVENT_LOSS_RECONCILED))
  }

  function SnapshotAttempts(attempts: map<AttemptId, Attempt>, s: Snapshot, graceMs: nat)
    : (r: map<AttemptId, Attempt>)
    ensures r.Keys == attempts.Keys
  {
    map a | a in attempts :: SnapshotAttempt(a, attempts[a], s, graceMs)
  }

  ghost predicate SnapshotEffect(db: Db, s: Snapshot, graceMs: nat, db': Db)
    requires WellFormed(db)
  {
    && db'.attempts == SnapshotAttempts(db.attempts, s, graceMs)
    && TasksFollow(db, db'.attempts, s.at, db'.tasks)
    && db' == db.(tasks := db'.tasks, attempts := db'.attempts)
  }

  // --------------------------------------------------------------------- reaping

  datatype Timeouts = Timeouts(callingMs: nat, inCallMs: nat) {
    function Of(s: Status): nat {
      if s == InCall then inCallMs else callingMs
    }
  }

  /** The time a call has been running since: its answer if it is in a call, else its start. */
  function Anchor(a: Attempt): Time {
    if a.status == InCall then a.answeredAt.GetOr(a.startedAt) else a.startedAt
  }

  /** The rows the query of the reaper selects. */
  predicate Prefilter(a: Attempt, now: Time, timeouts: Timeouts) {
    || (a.status == Calling && a.startedAt < now - timeouts.callingMs)
    || (a.status == InCall && a.answeredAt.Some? && a.answeredAt.value < now - timeouts.inCallMs)
    || (a.status == InCall && a.answeredAt.None? && a.startedAt < now - timeouts.inCallMs)
  }

  /** The check the reaper makes on a selected row. */
  predicate TimedOut(a: Attempt, now: Time, timeouts: Timeouts) {
    now - Anchor(a) >= timeouts.Of(a.status)
  }

  function ReapAttempt(a: Attempt, now: Time, timeouts: Timeouts): Attempt {
    if !Prefilter(a, now, timeouts) || !TimedOut(a, now, timeouts) then a else
    var existing := NormalizeCause(a.hangupCause);
    CloseAttempt(a, ClosingStatus(existing, a.answeredAt.Some? || a.status == InCall), now,
                 existing.GetOr(STALE_CALL_REAPED))
  }

  function ReapAttempts(attempts: map<AttemptId, Attempt>, now: Time, timeouts: Timeouts): (r: map<AttemptId, Attempt>)
    ensures r.Keys == attempts.Keys
  {
    map a | a in attempts :: ReapAttempt(attempts[a], now, timeouts)
  }

  ghost predicate ReapEffect(db: Db, now: Time, timeouts: Timeouts, db': Db)
    requires WellFormed(db)
  {
    && db'.attempts == ReapAttempts(db.attempts, now, timeouts)
    && TasksFollow(db, db'.attempts, now, db'.tasks)
    && db' == db.(tasks := db'.tasks, attempts := db'.attempts)
  }

  // --------------------------------------- writers that read first and then compare and set

  /** What a status update read before it wrote: other commits may lie between. */
  datatype StatusRead = StatusRead(status: Status, calledAt: Option<Time>)

  function Elapsed(start: Option<Time>, terminal: bool, now: Time): Option<nat> {
    if terminal then DurationSeconds(start, now) else None
  }

  function StatusUpdatedTask(t: Task, read: StatusRead, next: Status, now: Time): Task {
    t.(status := next,
       calledAt := if next == InCall && read.calledAt.None? then Some(now) else t.calledAt,
       endedAt := if Terminal(next) then Some(now) else t.endedAt,
       duration := Elapsed(read.calledAt, Terminal(next), now).Or(t.duration))
  }

  function StatusUpdatedAttempt(a: Attempt, read: Attempt, next: Status, now: Time): Attempt {
    a.(status := next,
       ringingAt := if next == Calling then read.ringingAt.Or(Some(now)) else a.ringingAt,
       answeredAt := if next == InCall then read.answeredAt.Or(Some(now)) else a.answeredAt,
       endedAt := if Terminal(next) then Some(now) else a.endedAt,
       duration := Elapsed(read.answeredAt, Terminal(next), now).Or(a.duration))
  }

  /** The status update that read `read` still finds that status when it writes. */
  predicate UpdateApplies(db: Db, id: TaskId, read: StatusRead, next: Status) {
    id in db.tasks && read.status != next && Allowed(read.status, next) && db.tasks[id].status == read.status
  }

  /** `target` is the attempt the caller named, with the values that were read from it. */
  function StatusUpdated(db: Db, id: TaskId, target: Option<(AttemptId, Attempt)>, read: StatusRead, next: Status,
                         now: Time): Db
    requires id in db.tasks && (target.Some? ==> target.value.0 in db.attempts)
  {
    var written := db.PutTask(id, StatusUpdatedTask(db.tasks[id], read, next, now));
    match target
    case None => written
    case Some((a, attemptRead)) => written.PutAttempt(a, StatusUpdatedAttempt(db.attempts[a], attemptRead, next, now))
  }

  predicate HangupApplies(db: Db, id: TaskId) {
    id in db.tasks && !Terminal(db.tasks[id].status)
  }

  function HungUp(db: Db, id: TaskId, target: Option<(AttemptId, Attempt)>, calledAtRead: Option<Time>, now: Time): Db
    requires id in db.tasks && (target.Some? ==> target.value.0 in db.attempts)
  {
    var written := db.PutTask(id, HungUpTask(db.tasks[id], calledAtRead, now));
    match target
    case None => written
    case Some((a, read)) =>
      written.PutAttempt(a, HungUpAttempt(db.attempts[a], read, now))
  }

  function HungUpTask(t: Task, calledAtRead: Option<Time>, now: Time): Task {
    t.(status := Completed, endedAt := Some(now), duration := DurationSeconds(calledAtRead, now).Or(t.duration))
  }

  function HungUpAttempt(a: Attempt, read: Attempt, now: Time): Attempt {
    a.(status := Completed, endedAt := read.endedAt.Or(Some(now)),
       duration := DurationSeconds(read.answeredAt, now).Or(read.duration).Or(a.duration))
  }

  // ----------------------------------------------- what the outbox workers write on calls

  /** The terminal failure of a dispatch: attempt and task fail if they are still calling. The clock is
    * read once for each of them. */
  function DispatchFailed(db: Db, a: AttemptId, message: string, at: Time, taskAt: Time): Db
    requires a in db.attempts && db.attempts[a].taskId in db.tasks
  {
    var row, t := db.attempts[a], db.TaskOf(a);
    db.(attempts := db.attempts[a := FailedAttempt(row, message, at)],
        tasks := db.tasks[row.taskId :=
                   if t.status == Calling then t.(status := Failed, endedAt := Some(taskAt)) else t])
  }

  function FailedAttempt(a: Attempt, message: string, now: Time): Attempt {
    if a.status == Calling then a.(status := Failed, endedAt := Some(now), hangupCause := Some(message)) else a
  }

  /** The marker that is committed before a call is placed, and the job id that is committed after. */
  function Marked(db: Db, a: AttemptId, now: Time): Db
    requires a in db.attempts
  {
    db.PutAttempt(a, db.attempts[a].(dispatchStartedAt := Some(now)))
  }

  function Accepted(db: Db, a: AttemptId, jobId: string): Db
    requires a in db.attempts
  {
    db.PutAttempt(a, db.attempts[a].(providerJobId := Some(jobId)))
  }
}
