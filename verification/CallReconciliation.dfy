/** When snapshots and the reaper close a call. */
module CallReconciliation {
  import opened Options
  import opened CallRows
  import opened ProviderEvents
  import opened CallDb
  import opened CallSteps
  import opened CallHistory
  import opened CallFates
  import opened CommitEffects

  // -------------------------------------------------------------------- snapshots over runs

  /** Step `i` counts attempt `a` as missing. */
  ghost predicate MissesAt(dbs: seq<Db>, steps: seq<Step>, i: nat, a: AttemptId) {
    && i < |steps| && i < |dbs| && steps[i].TakeSnapshot? && a in dbs[i].attempts
    && Misses(a, dbs[i].attempts[a], steps[i].snapshot, steps[i].graceMs)
  }

  /** The step neither counts a snapshot of the attempt nor records an event of it dated `since` or later. */
  ghost predicate Quiet(db: Db, step: Step, a: AttemptId, since: Time) {
    && (step.TakeSnapshot? && a in db.attempts ==> !Counts(db.attempts[a], step.snapshot))
    && (step.Event? && step.attempt == a && RecordOutcome(db, a, step.ev) == Ok(Applied) ==> step.ev.at < since)
  }

  /** Step `i` is a miss that nothing has answered before state `k`. */
  ghost predicate OpenMiss(dbs: seq<Db>, steps: seq<Step>, i: nat, k: nat, a: AttemptId) {
    && MissesAt(dbs, steps, i, a) && i < k <= |steps| && k < |dbs|
    && forall j :: i < j < k ==> Quiet(dbs[j], steps[j], a, steps[i].snapshot.at)
  }

  /** No step but one that revives it makes an attempt active that was not. */
  lemma ActiveBefore(db: Db, step: Step, id: AttemptId)
    requires WellFormed(db) && id in db.attempts && !Revives(db, step, id) && db.attempts[id].status != Pending
    ensures var a, a' := db.attempts[id], AttemptUnder(db, step, id);
      a'.status != Pending && (Active(a'.status) ==> Active(a.status))
  {
    hide DurationSeconds, NormalizeCause, IsFatal, TerminalStatus, HangupCause, Backfilled, JobFailureCause, FailsJob;
    hide IsAnswer, IsHangup, IsRecording, IsProgress, IsBackgroundJob, Earliest;
    hide Latest, WellFormed, ClosingStatus, RecordOutcome;
    hide Counts, Misses, Prefilter, TimedOut;
  }

  /** What a step does to the count of missed snapshots of an active attempt. */
  lemma MissingUnder(db: Db, step: Step, id: AttemptId)
    requires WellFormed(db) && id in db.attempts
    requires Active(db.attempts[id].status) && db.attempts[id].missingCount <= 1
    ensures var a, a' := db.attempts[id], AttemptUnder(db, step, id);
      var miss := step.TakeSnapshot? && Misses(id, a, step.snapshot, step.graceMs);
      && (miss && a.missingCount == 1 ==> Terminal(a'.status))
      && (miss && a.missingCount == 0 ==>
            Active(a'.status) && a'.missingCount == 1 && a'.lastSnapshotAt == Some(step.snapshot.at))
      && (!miss ==>
            || a'.missingCount == 0
            || (a'.missingCount == 1 && a.missingCount == 1 && a'.lastSnapshotAt == a.lastSnapshotAt))
      && (step.TakeSnapshot? && Terminal(a'.status) ==> miss && a.missingCount == 1)
      && (!miss && a.missingCount == 1 && a.lastSnapshotAt.Some? ==>
            (Quiet(db, step, id, a.lastSnapshotAt.value) <==> a'.missingCount == 1))
  {
    hide DurationSeconds, NormalizeCause, IsFatal, TerminalStatus, HangupCause, Backfilled, JobFailureCause, FailsJob;
    hide IsAnswer, IsHangup, IsRecording, IsProgress, IsBackgroundJob, Earliest;
    hide Latest, WellFormed, ClosingStatus, RecordOutcome;
  }

  ghost predicate HasOpenMiss(dbs: seq<Db>, steps: seq<Step>, k: nat, a: AttemptId, at: Option<Time>) {
    at.Some? && exists i: nat :: OpenMiss(dbs, steps, i, k, a) && steps[i].snapshot.at == at.value
  }

  /** What the count of an active attempt says about the run so far. */
  ghost predicate Tracked(dbs: seq<Db>, steps: seq<Step>, k: nat, a: AttemptId)
    requires k < |dbs| && a in dbs[k].attempts
  {
    var row := dbs[k].attempts[a];
    && row.status != Pending
    && (Active(row.status) ==> row.missingCount <= 1)
    && (Active(row.status) && row.missingCount == 1 ==> HasOpenMiss(dbs, steps, k, a, row.lastSnapshotAt))
    && (Active(row.status) ==> forall i: nat :: OpenMiss(dbs, steps, i, k, a) ==>
          row.missingCount == 1 && row.lastSnapshotAt == Some(steps[i].snapshot.at))
  }

  lemma Opens(dbs: seq<Db>, steps: seq<Step>, k: nat, a: AttemptId)
    requires |dbs| == |steps| + 1 && k < |steps| && WellFormed(dbs[k]) && a in dbs[k].attempts
    requires Active(dbs[k].attempts[a].status) && dbs[k].attempts[a].missingCount <= 1
    requires dbs[k].attempts[a].missingCount == 1 ==> HasOpenMiss(dbs, steps, k, a, dbs[k].attempts[a].lastSnapshotAt)
    requires a in dbs[k + 1].attempts
    requires dbs[k + 1].attempts[a] == AttemptUnder(dbs[k], steps[k], a)
    requires Active(dbs[k + 1].attempts[a].status) && dbs[k + 1].attempts[a].missingCount == 1
    ensures HasOpenMiss(dbs, steps, k + 1, a, dbs[k + 1].attempts[a].lastSnapshotAt)
  {
    MissingUnder(dbs[k], steps[k], a);
    hide AttemptUnder, Next, WellFormed, Misses, Counts, Quiet;
    if MissesAt(dbs, steps, k, a) {
      assert OpenMiss(dbs, steps, k, k + 1, a);
    } else {
      var i: nat :| OpenMiss(dbs, steps, i, k, a) && steps[i].snapshot.at == dbs[k].attempts[a].lastSnapshotAt.value;
      assert OpenMiss(dbs, steps, i, k + 1, a);
    }
  }

  lemma TracksOne(dbs: seq<Db>, steps: seq<Step>, k: nat, a: AttemptId)
    requires IsRun(dbs, steps) && k < |steps| && a in dbs[k].attempts && Tracked(dbs, steps, k, a)
    requires !Revives(dbs[k], steps[k], a)
    ensures a in dbs[k + 1].attempts && Tracked(dbs, steps, k + 1, a)
  {
    AttemptSteps(dbs[k], steps[k], dbs[k + 1], a);
    ActiveBefore(dbs[k], steps[k], a);
    if Active(dbs[k + 1].attempts[a].status) {
      MissingUnder(dbs[k], steps[k], a);
      MissIsCounted(dbs[k], steps[k], a);
      hide AttemptUnder, Next, WellFormed, Misses, Counts, Quiet;
      forall i: nat | OpenMiss(dbs, steps, i, k + 1, a)
        ensures dbs[k + 1].attempts[a].missingCount == 1
        ensures dbs[k + 1].attempts[a].lastSnapshotAt == Some(steps[i].snapshot.at)
      {
        assert i < k ==> OpenMiss(dbs, steps, i, k, a) && Quiet(dbs[k], steps[k], a, steps[i].snapshot.at);
        assert i == k ==> MissesAt(dbs, steps, k, a);
      }
      if dbs[k + 1].attempts[a].missingCount == 1 {
        Opens(dbs, steps, k, a);
      }
    }
    hide *;
  }

  lemma MissIsCounted(db: Db, step: Step, a: AttemptId)
    requires a in db.attempts
    ensures step.TakeSnapshot? && Misses(a, db.attempts[a], step.snapshot, step.graceMs) ==>
      forall since :: !Quiet(db, step, a, since)
  {
  }

  lemma StartsTracked(dbs: seq<Db>, steps: seq<Step>, k: nat, a: AttemptId)
    requires IsRun(dbs, steps) && k < |steps| && a !in dbs[k].attempts && a in dbs[k + 1].attempts
    requires forall j :: 0 <= j <= k ==> a !in dbs[j].attempts
    ensures Tracked(dbs, steps, k + 1, a)
  {
    NextAttempts(dbs[k], steps[k], dbs[k + 1], a);
    hide Next, WellFormed, Misses, Quiet;
  }

  lemma NeverThereBefore(dbs: seq<Db>, steps: seq<Step>, k: nat, a: AttemptId)
    requires IsRun(dbs, steps) && k < |dbs| && a !in dbs[k].attempts
    ensures forall j :: 0 <= j <= k ==> a !in dbs[j].attempts
  {
    forall j | 0 <= j <= k
      ensures a !in dbs[j].attempts
    {
      if a in dbs[j].attempts {
        AttemptsStay(dbs, steps, j, k, a);
      }
    }
    hide *;
  }

  lemma {:induction false} RunsTrack(dbs: seq<Db>, steps: seq<Step>, k: nat, a: AttemptId)
    requires IsRun(dbs, steps) && k < |dbs| && a in dbs[k].attempts
    requires forall j :: 0 <= j < k ==> !Revives(dbs[j], steps[j], a)
    ensures Tracked(dbs, steps, k, a)
  {
    hide Tracked, Next, WellFormed, Revives;
    if k > 0 {
      if a in dbs[k - 1].attempts {
        RunsTrack(dbs, steps, k - 1, a);
        TracksOne(dbs, steps, k - 1, a);
      } else {
        NeverThereBefore(dbs, steps, k - 1, a);
        StartsTracked(dbs, steps, k - 1, a);
      }
    }
  }

  /** A miss is a snapshot of the attempt's channel, newer than any that was counted, in which an active attempt
    * with a job id is absent although its grace period is past. */
  lemma MissIff(dbs: seq<Db>, steps: seq<Step>, i: nat, a: AttemptId)
    requires |dbs| == |steps| + 1
    ensures MissesAt(dbs, steps, i, a) <==>
      && i < |steps| && steps[i].TakeSnapshot? && a in dbs[i].attempts
      && IsNews(dbs[i].attempts[a], steps[i].snapshot)
      && a !in steps[i].snapshot.active
      && steps[i].snapshot.at - dbs[i].attempts[a].startedAt >= steps[i].graceMs
  {
  }

  /** A snapshot closes an attempt exactly if the attempt is missing from it while an earlier miss is still open:
    * no snapshot has been counted since, and no event dated at that miss or later has been recorded. */
  lemma ClosesOnSecondMiss(dbs: seq<Db>, steps: seq<Step>, k: nat, a: AttemptId)
    requires IsRun(dbs, steps) && k < |steps| && steps[k].TakeSnapshot?
    requires a in dbs[k].attempts && Active(dbs[k].attempts[a].status)
    requires forall j :: 0 <= j < k ==> !Revives(dbs[j], steps[j], a)
    ensures a in dbs[k + 1].attempts
    ensures Terminal(dbs[k + 1].attempts[a].status) <==>
      MissesAt(dbs, steps, k, a) && exists i: nat :: OpenMiss(dbs, steps, i, k, a)
    ensures forall i: nat :: MissesAt(dbs, steps, i, a) <==>
      && i < |steps| && steps[i].TakeSnapshot? && a in dbs[i].attempts
      && IsNews(dbs[i].attempts[a], steps[i].snapshot)
      && a !in steps[i].snapshot.active
      && steps[i].snapshot.at - dbs[i].attempts[a].startedAt >= steps[i].graceMs
    ensures MissesAt(dbs, steps, k, a) ==>
      forall i: nat :: OpenMiss(dbs, steps, i, k, a) ==> steps[i].snapshot.at < steps[k].snapshot.at
    ensures dbs[k].attempts[a].missingCount in {0, 1}
  {
    RunsTrack(dbs, steps, k, a);
    AttemptSteps(dbs[k], steps[k], dbs[k + 1], a);
    assert Tracked(dbs, steps, k, a);
    MissingUnder(dbs[k], steps[k], a);
    hide IsRun, Next, AttemptUnder, Quiet;
    forall i: nat {
      MissIff(dbs, steps, i, a);
    }
  }

  /** A snapshot that is counted and has the attempt leaves it as it was, with no misses. */
  lemma PresentStaysActive(db: Db, s: Snapshot, graceMs: nat, db': Db, a: AttemptId)
    requires WellFormed(db) && Next(db, TakeSnapshot(s, graceMs), db')
    requires a in db.attempts && IsNews(db.attempts[a], s) && a in s.active
    ensures a in db'.attempts && db'.attempts[a] ==
      db.attempts[a].(lastSnapshotId := Some(s.id), lastSnapshotAt := Some(s.at), missingCount := 0)
    ensures db'.attempts[a].status in {Calling, InCall}
  {
    SnapshotWrites(db, s, graceMs, db');
    assert Reconciled(a, db.attempts[a], s, graceMs, db'.attempts[a]);
    hide Next, WellFormed, TasksClosed;
  }

  // ------------------------------------------------------------ snapshots that come late or twice

  lemma SnapshotTimeUnder(db: Db, step: Step, id: AttemptId)
    requires WellFormed(db) && id in db.attempts && db.attempts[id].lastSnapshotAt.Some?
    ensures var a' := AttemptUnder(db, step, id);
      && a'.lastSnapshotAt.Some? && a'.lastSnapshotAt.value >= db.attempts[id].lastSnapshotAt.value
      && (step.TakeSnapshot? && Counts(db.attempts[id], step.snapshot) ==>
            step.snapshot.at > db.attempts[id].lastSnapshotAt.value)
  {
    hide DurationSeconds, NormalizeCause, IsFatal, TerminalStatus, HangupCause, Backfilled, JobFailureCause, FailsJob;
    hide IsAnswer, IsHangup, IsRecording, IsProgress, IsBackgroundJob, Earliest;
    hide Latest, WellFormed, ClosingStatus, RecordOutcome;
  }

  lemma {:induction false} SnapshotTimesGrow(dbs: seq<Db>, steps: seq<Step>, i: nat, j: nat, a: AttemptId)
    requires IsRun(dbs, steps) && i <= j < |dbs| && a in dbs[i].attempts && dbs[i].attempts[a].lastSnapshotAt.Some?
    ensures a in dbs[j].attempts && dbs[j].attempts[a].lastSnapshotAt.Some?
    ensures dbs[i].attempts[a].lastSnapshotAt.value <= dbs[j].attempts[a].lastSnapshotAt.value
    decreases j - i
  {
    hide Next, WellFormed, AttemptUnder;
    if i < j {
      SnapshotTimesGrow(dbs, steps, i, j - 1, a);
      StepAt(dbs, steps, j - 1);
      hide IsRun;
      AttemptSteps(dbs[j - 1], steps[j - 1], dbs[j], a);
      SnapshotTimeUnder(dbs[j - 1], steps[j - 1], a);
    }
  }

  /** Whatever happens in between, an attempt that has counted a snapshot counts no other, and not the same
    * again, unless it is newer. A snapshot that does not count leaves the attempt as it is. */
  lemma NoOlderSnapshotCounts(dbs: seq<Db>, steps: seq<Step>, i: nat, j: nat, a: AttemptId)
    requires IsRun(dbs, steps) && i < j < |steps| && steps[i].TakeSnapshot? && steps[j].TakeSnapshot?
    requires a in dbs[i].attempts && Counts(dbs[i].attempts[a], steps[i].snapshot)
    requires steps[j].snapshot.at <= steps[i].snapshot.at
    ensures a in dbs[j].attempts && a in dbs[j + 1].attempts && dbs[j + 1].attempts[a] == dbs[j].attempts[a]
  {
    hide Counts, Misses, Next, WellFormed;
    StepAt(dbs, steps, i);
    StepAt(dbs, steps, j);
    CountedIsSeen(dbs[i], steps[i], dbs[i + 1], a);
    SnapshotTimesGrow(dbs, steps, i + 1, j, a);
    hide IsRun;
    OlderIsIgnored(dbs[j], steps[j], dbs[j + 1], a);
  }

  lemma CountedIsSeen(db: Db, step: Step, db': Db, a: AttemptId)
    requires WellFormed(db) && Next(db, step, db') && step.TakeSnapshot?
    requires a in db.attempts && Counts(db.attempts[a], step.snapshot)
    ensures a in db'.attempts && db'.attempts[a].lastSnapshotAt == Some(step.snapshot.at)
  {
    AttemptSteps(db, step, db', a);
    hide Next, WellFormed, Misses, ClosingStatus, NormalizeCause;
  }

  lemma OlderIsIgnored(db: Db, step: Step, db': Db, a: AttemptId)
    requires WellFormed(db) && Next(db, step, db') && step.TakeSnapshot? && a in db.attempts
    requires db.attempts[a].lastSnapshotAt.Some? && step.snapshot.at <= db.attempts[a].lastSnapshotAt.value
    ensures a in db'.attempts && db'.attempts[a] == db.attempts[a]
  {
    AttemptSteps(db, step, db', a);
    hide Next, WellFormed, Misses, ClosingStatus, NormalizeCause;
  }

  lemma ReplayLeavesAttempt(id: AttemptId, a: Attempt, s: Snapshot, graceMs: nat, graceMs': nat)
    ensures var once := SnapshotAttempt(id, a, s, graceMs); SnapshotAttempt(id, once, s, graceMs') == once
  {
    hide NormalizeCause, ClosingStatus, DurationSeconds;
  }

  lemma ReplayLeavesAttempts(attempts: map<AttemptId, Attempt>, s: Snapshot, graceMs: nat, graceMs': nat)
    ensures var once := SnapshotAttempts(attempts, s, graceMs); SnapshotAttempts(once, s, graceMs') == once
  {
    hide SnapshotAttempt;
    forall a | a in attempts {
      ReplayLeavesAttempt(a, attempts[a], s, graceMs, graceMs');
    }
  }

  /** A snapshot or a tick that leaves the attempts as they are leaves the tasks, too. */
  lemma NoneEndsNoneCloses(db: Db, step: Step, db': Db)
    requires WellFormed(db) && Next(db, step, db') && Closes(step) && db'.attempts == db.attempts
    ensures db'.tasks == db.tasks
  {
    StepsRows(db, step, db');
    hide Next, WellFormed, AttemptUnder, CloseTask, Closes;
    forall t | t in db.tasks
      ensures db'.tasks[t] == db.tasks[t]
    {
      var decider := TaskCloses(db, step, db', t);
    }
  }

  /** Delivering the same snapshot twice in a row changes nothing the second time, for calls and tasks. */
  lemma ReplayChangesNothing(db: Db, s: Snapshot, graceMs: nat, graceMs': nat, db': Db, db'': Db)
    requires WellFormed(db) && Next(db, TakeSnapshot(s, graceMs), db')
    requires WellFormed(db') && Next(db', TakeSnapshot(s, graceMs'), db'')
    ensures db'' == db'
  {
    hide SnapshotAttempts, TasksFollow, WellFormed;
    ReplayLeavesAttempts(db.attempts, s, graceMs, graceMs');
    assert db''.attempts == db'.attempts;
    NoneEndsNoneCloses(db', TakeSnapshot(s, graceMs'), db'');
  }

  // --------------------------------------------------------------------------- the reaper

  /** The query of the reaper and its check in memory together select exactly the active attempts that
    * have been running for more than their limit. Every other attempt is left alone. */
  lemma ReapsExactlyTheStale(a: Attempt, now: Time, timeouts: Timeouts)
    requires a.status != Pending
    ensures var a' := ReapAttempt(a, now, timeouts);
      if Active(a.status) && now - Anchor(a) > timeouts.Of(a.status)
      then Terminal(a'.status) && a'.endedAt.Some? && a'.hangupCause.Some?
      else a' == a
  {
    hide NormalizeCause, TerminalStatus, DurationSeconds;
  }

  /** The first tick of the reaper past the limit ends a call that was left calling, whether or not it ever
    * got a job id, and whatever has become of its task. */
  lemma StuckCallIsReaped(db: Db, now: Time, timeouts: Timeouts, db': Db, a: AttemptId)
    requires WellFormed(db) && Next(db, Reap(now, timeouts), db')
    requires a in db.attempts && db.attempts[a].status == Calling
    requires now - db.attempts[a].startedAt > timeouts.callingMs
    ensures a in db'.attempts && Terminal(db'.attempts[a].status) && db'.attempts[a].endedAt.Some?
  {
    AttemptSteps(db, Reap(now, timeouts), db', a);
    hide Next, ReapAttempt, WellFormed;
    ReapsExactlyTheStale(db.attempts[a], now, timeouts);
  }

  /** In a consistent database such a call is the latest of its task, and the task ends with it. */
  lemma StuckTaskIsReaped(db: Db, now: Time, timeouts: Timeouts, db': Db, a: AttemptId)
    requires WellFormed(db) && Consistent(db) && Next(db, Reap(now, timeouts), db')
    requires a in db.attempts && db.attempts[a].status == Calling
    requires now - db.attempts[a].startedAt > timeouts.callingMs
    ensures a in db'.attempts && LatestIn(db, a) && db.attempts[a].taskId in db'.tasks
    ensures db'.tasks[db.attempts[a].taskId].status == db'.attempts[a].status
  {
    InAgreement(db, a);
    StuckCallIsReaped(db, now, timeouts, db', a);
    assert Decides(db, db'.attempts, a);
    var decider := TaskCloses(db, Reap(now, timeouts), db', db.attempts[a].taskId);
    hide Next, Numbered, Consistent;
  }
}
