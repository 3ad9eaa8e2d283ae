/** Which statuses are final, over all the writers of calls. */
module CallFates {
  import opened CallRows
  import opened ProviderEvents
  import opened CallDb
  import opened CallSteps
  import opened CallHistory

  // -------------------------------------------------------------------- statuses of tasks

  /** The statuses a task may have after one commit. */
  predicate MayFollow(s: Status, s': Status) {
    s' == s ||
    match s
    case Pending => s' in {Calling, Completed, Failed, Cancelled}
    case Calling => s' != Pending
    case InCall => s' != Pending && s' != Calling
    case Failed => s' == Calling
    case NoAnswer => s' == Calling
    case Completed => false
    case Cancelled => false
  }

  /** A task that is pending has no attempts. */
  ghost predicate PendingIsNew(db: Db) {
    forall t :: t in db.tasks && db.tasks[t].status == Pending ==> db.tasks[t].attemptCount == 0
  }

  lemma EventFollows(t: Task, a: Attempt, ev: ProviderEvent)
    requires t.status != Pending || t.attemptCount != a.attemptNo
    ensures MayFollow(t.status, TaskAfter(t, a, ev).status)
  {
    hide IsAnswer, IsHangup, IsRecording, IsProgress, IsBackgroundJob, FailsJob, HasDirectEvidence, AnswerEvidence;
    hide NormalizeCause, IsFatal, DurationSeconds, Latest, Earliest, HangupCause, Backfilled;
  }

  lemma TaskFollows(db: Db, step: Step, db': Db, t: TaskId)
    requires WellFormed(db) && PendingIsNew(db) && Next(db, step, db') && t in db.tasks
    ensures t in db'.tasks && MayFollow(db.tasks[t].status, db'.tasks[t].status)
  {
    TaskSteps(db, step, db', t);
    if Closes(step) {
      ClosingFollows(db, step, db', t);
      hide Next, WellFormed, PendingIsNew, MayFollow, Closes;
    } else if step.Event? {
      if step.attempt in db.attempts && db.attempts[step.attempt].taskId == t {
        EventFollows(db.tasks[t], db.attempts[step.attempt], step.ev);
      }
      hide Next, TaskAfter, MayFollow, Distinct;
    } else {
      OthersFollow(db, step, t);
      hide Next, TaskUnder, WellFormed, MayFollow;
    }
  }

  lemma ClosingFollows(db: Db, step: Step, db': Db, t: TaskId)
    requires WellFormed(db) && PendingIsNew(db) && Next(db, step, db') && t in db.tasks && Closes(step)
    ensures t in db'.tasks && MayFollow(db.tasks[t].status, db'.tasks[t].status)
  {
    var decider := TaskCloses(db, step, db', t);
    hide Next, Distinct, ClosesAt, Closes;
    if decider.Some? {
      DecidedIsOpen(db, db'.attempts, decider.value);
      hide Decides, WellFormed, PendingIsNew;
    }
  }

  lemma DecidedIsOpen(db: Db, attempts': map<AttemptId, Attempt>, a: AttemptId)
    requires WellFormed(db) && PendingIsNew(db) && a in db.attempts && a in attempts' && Decides(db, attempts', a)
    ensures Terminal(attempts'[a].status) && (db.TaskOf(a).status == Calling || db.TaskOf(a).status == InCall)
  {
    hide Distinct;
  }

  lemma OthersFollow(db: Db, step: Step, t: TaskId)
    requires WellFormed(db) && t in db.tasks && !Closes(step) && !step.Event?
    requires step.Worker? ==> step.delivery.NoChange? || step.delivery.attempt in db.attempts
    ensures MayFollow(db.tasks[t].status, TaskUnder(db, step, t).status)
  {
    hide WellFormed, DurationSeconds, Elapsed;
  }

  lemma KeepsPendingNew(db: Db, step: Step, db': Db)
    requires WellFormed(db) && PendingIsNew(db) && Next(db, step, db')
    ensures PendingIsNew(db')
  {
    forall t | t in db'.tasks && db'.tasks[t].status == Pending
      ensures db'.tasks[t].attemptCount == 0
    {
      StepsRows(db, step, db');
      if t in db.tasks {
        TaskFollows(db, step, db', t);
        TaskCounts(db, step, db', t);
        TaskSteps(db, step, db', t);
      }
      hide Next, WellFormed, TaskAfter, AttemptUnder, UpdateApplies, HangupApplies, RecordOutcome;
    }
    hide *;
  }

  lemma {:induction false} RunsKeepPendingNew(dbs: seq<Db>, steps: seq<Step>, i: nat)
    requires IsRun(dbs, steps) && i < |dbs|
    ensures PendingIsNew(dbs[i])
  {
    if i > 0 {
      RunsKeepPendingNew(dbs, steps, i - 1);
      KeepsPendingNew(dbs[i - 1], steps[i - 1], dbs[i]);
      hide Next, WellFormed, PendingIsNew;
    }
  }

  /** In every run of any writers, each commit moves a task along `MayFollow`. */
  lemma StatusesFollow(dbs: seq<Db>, steps: seq<Step>, i: nat, t: TaskId)
    requires IsRun(dbs, steps) && i < |steps| && t in dbs[i].tasks
    ensures t in dbs[i + 1].tasks && MayFollow(dbs[i].tasks[t].status, dbs[i + 1].tasks[t].status)
  {
    RunsKeepPendingNew(dbs, steps, i);
    TaskFollows(dbs[i], steps[i], dbs[i + 1], t);
  }

  /** Completed and cancelled are final, and no task becomes pending again. */
  lemma {:induction false} FinalStatuses(dbs: seq<Db>, steps: seq<Step>, i: nat, j: nat, t: TaskId)
    requires IsRun(dbs, steps) && i <= j < |dbs| && t in dbs[i].tasks
    ensures t in dbs[j].tasks
    ensures dbs[i].tasks[t].status in {Completed, Cancelled} ==> dbs[j].tasks[t].status == dbs[i].tasks[t].status
    ensures dbs[i].tasks[t].status != Pending ==> dbs[j].tasks[t].status != Pending
    decreases j - i
  {
    if i < j {
      FinalStatuses(dbs, steps, i, j - 1, t);
      StatusesFollow(dbs, steps, j - 1, t);
    }
    hide IsRun;
  }

  // ------------------------------------------------------------------ the end of an attempt

  predicate SameEnd(a: Attempt, a': Attempt) {
    && a'.status == a.status && a'.endedAt == a.endedAt && a'.hangupCause == a.hangupCause
    && a'.answeredAt == a.answeredAt && a'.duration == a.duration
  }

  predicate Names(step: Step, a: AttemptId) {
    (step.Update? || step.Hangup?) && step.target.Some? && step.target.value.0 == a
  }

  /** A status update or a local hangup that names this attempt, and applies. */
  predicate Overwrites(db: Db, step: Step, a: AttemptId) {
    Names(step, a) &&
    if step.Update? then UpdateApplies(db, step.task, step.read, step.next) else HangupApplies(db, step.task)
  }

  lemma EndKept(db: Db, step: Step, a: AttemptId)
    requires WellFormed(db) && a in db.attempts && Terminal(db.attempts[a].status) && !Overwrites(db, step, a)
    ensures SameEnd(db.attempts[a], AttemptUnder(db, step, a))
  {
    hide DurationSeconds, NormalizeCause, IsFatal, HangupStatus, HangupCause, Backfilled, JobFailureCause, FailsJob;
    hide IsAnswer, IsHangup, IsRecording, IsProgress, IsBackgroundJob, Latest, Earliest, WellFormed, RecordOutcome;
    hide UpdateApplies, HangupApplies;
  }

  /** An attempt ends once: after that, only a status update or a hangup that names it, and applies, changes
    * its end. */
  lemma {:induction false} EndsOnce(dbs: seq<Db>, steps: seq<Step>, i: nat, j: nat, a: AttemptId)
    requires IsRun(dbs, steps) && i <= j < |dbs|
    requires a in dbs[i].attempts && Terminal(dbs[i].attempts[a].status)
    requires forall k :: i <= k < j ==> !Overwrites(dbs[k], steps[k], a)
    ensures a in dbs[j].attempts && SameEnd(dbs[i].attempts[a], dbs[j].attempts[a])
    decreases j - i
  {
    hide Next, WellFormed, AttemptUnder, Overwrites;
    if i < j {
      EndsOnce(dbs, steps, i, j - 1, a);
      StepAt(dbs, steps, j - 1);
      hide IsRun;
      AttemptSteps(dbs[j - 1], steps[j - 1], dbs[j], a);
      EndKept(dbs[j - 1], steps[j - 1], a);
    }
  }

  /** A status update to an active status that names an attempt which has ended, and applies. */
  predicate Revives(db: Db, step: Step, a: AttemptId) {
    && a in db.attempts && Terminal(db.attempts[a].status)
    && Names(step, a) && step.Update?
    && UpdateApplies(db, step.task, step.read, step.next) && Active(step.next)
  }

  /** An ended attempt becomes active exactly by such an update. */
  lemma ActiveAgainIff(db: Db, step: Step, a: AttemptId)
    requires WellFormed(db) && a in db.attempts && Terminal(db.attempts[a].status)
    ensures Active(AttemptUnder(db, step, a).status) <==> Revives(db, step, a)
    ensures !Revives(db, step, a) ==> Terminal(AttemptUnder(db, step, a).status)
  {
    if !Overwrites(db, step, a) {
      EndKept(db, step, a);
      hide AttemptUnder, WellFormed, Allowed;
    } else {
      hide WellFormed, DurationSeconds;
    }
  }

  lemma {:induction false} StaysEnded(dbs: seq<Db>, steps: seq<Step>, i: nat, j: nat, a: AttemptId)
    requires IsRun(dbs, steps) && i <= j < |dbs|
    requires a in dbs[i].attempts && Terminal(dbs[i].attempts[a].status)
    requires forall k :: i <= k < j ==> !Revives(dbs[k], steps[k], a)
    ensures a in dbs[j].attempts && Terminal(dbs[j].attempts[a].status)
    decreases j - i
  {
    hide Next, WellFormed, AttemptUnder, Revives;
    if i < j {
      StaysEnded(dbs, steps, i, j - 1, a);
      StepAt(dbs, steps, j - 1);
      hide IsRun;
      AttemptSteps(dbs[j - 1], steps[j - 1], dbs[j], a);
      ActiveAgainIff(dbs[j - 1], steps[j - 1], a);
    }
  }

  ghost predicate IsEnded(db: Db, a: AttemptId) {
    a in db.attempts && Terminal(db.attempts[a].status)
  }

  /** In every run, an attempt that has ended stays so exactly as long as no step revives it. */
  lemma StaysEndedIff(dbs: seq<Db>, steps: seq<Step>, i: nat, j: nat, a: AttemptId)
    requires IsRun(dbs, steps) && i <= j < |dbs| && IsEnded(dbs[i], a)
    ensures (forall k :: i <= k <= j ==> IsEnded(dbs[k], a)) <==>
            (forall k :: i <= k < j ==> !Revives(dbs[k], steps[k], a))
  {
    hide Next, WellFormed, AttemptUnder, Revives;
    if forall k :: i <= k < j ==> !Revives(dbs[k], steps[k], a) {
      forall k | i <= k <= j
        ensures IsEnded(dbs[k], a)
      {
        StaysEnded(dbs, steps, i, k, a);
      }
    } else {
      var k :| i <= k < j && Revives(dbs[k], steps[k], a);
      RevivedIsActive(dbs, steps, k, a);
      assert !IsEnded(dbs[k + 1], a);
    }
  }

  lemma RevivedIsActive(dbs: seq<Db>, steps: seq<Step>, k: nat, a: AttemptId)
    requires IsRun(dbs, steps) && k < |steps| && Revives(dbs[k], steps[k], a)
    ensures a in dbs[k + 1].attempts && Active(dbs[k + 1].attempts[a].status)
  {
    StepAt(dbs, steps, k);
    AttemptSteps(dbs[k], steps[k], dbs[k + 1], a);
    ActiveAgainIff(dbs[k], steps[k], a);
    hide IsRun, Next, WellFormed, AttemptUnder, Revives;
  }

  // -------------------------------------------------------------- who may write the task row

  /** `a` is the latest attempt of the task, and ends. */
  ghost predicate LatestEnds(db: Db, db': Db, t: TaskId, a: AttemptId)
    requires t in db.tasks
  {
    && HasNumber(db, t, db.tasks[t].attemptCount, a) && a in db'.attempts
    && Active(db.attempts[a].status) && Terminal(db'.attempts[a].status)
  }

  /** Events, snapshots, the reaper and deliveries that do not fail change a task only by an event of its
    * latest attempt, or when its latest attempt ends. */
  lemma OnlyTheLatestWrites(db: Db, step: Step, db': Db, t: TaskId)
    requires WellFormed(db) && Next(db, step, db') && t in db.tasks
    requires step.Event? || Closes(step) || (step.Worker? && !step.delivery.Fail?)
    ensures t in db'.tasks
    ensures db'.tasks[t] == db.tasks[t]
      || (step.Event? && step.attempt in db.attempts && db.attempts[step.attempt].taskId == t
          && LatestIn(db, step.attempt))
      || (Closes(step) && exists a :: LatestEnds(db, db', t, a))
  {
    TaskSteps(db, step, db', t);
    if Closes(step) {
      var decider := TaskCloses(db, step, db', t);
      if decider.Some? {
        AttemptSteps(db, step, db', decider.value);
        ClosingLeavesOrCloses(db, step, decider.value);
        assert LatestEnds(db, db', t, decider.value);
      }
      hide Next, WellFormed, CloseTask, AttemptUnder, ClosesAt;
    } else if step.Event? {
      if step.attempt in db.attempts && !LatestIn(db, step.attempt) {
        EarlierEventLeavesTask(db.TaskOf(step.attempt), db.attempts[step.attempt], step.ev);
      }
      hide Next, TaskAfter;
    } else {
      hide Next, WellFormed;
    }
  }

  lemma EarlierEventLeavesTask(t: Task, a: Attempt, ev: ProviderEvent)
    requires !IsLatest(t, a)
    ensures TaskAfter(t, a, ev) == t
  {
    hide JudgedAttempt, CloseTask;
  }
}
