/** The outbox workers that place calls, as a step relation over single commits and reads. */
module DispatchOutbox {
  import opened Options
  import opened CallRows
  import opened ProviderEvents
  import opened CallDb
  import opened CallSteps
  import CallHistory

  /** Why a row is marked processed. */
  datatype Evidence = HasJob | HasLeftCalling | WasWitnessed | AlreadyLive

  /** Where a worker is in a delivery. Between two stages any other process may commit. */
  datatype Stage =
    | Claimed                                          // about to read the attempt
    | Ambiguous                                        // marker found; about to look for provider events
    | Guarded                                          // no marker found; about to commit it
    | Dialling                                         // marker committed; about to originate
    | Placed(jobId: string)                            // originated; about to commit the job id
    | Finishing(evidence: Evidence)                    // about to mark the row processed
    | Burying                                          // about to mark the row failed for manual review
    | Failing(nonRetryable: bool, message: string)     // about to commit a failure

  /** `attemptsRead` is the attempt count of the row as it was read before the claim. */
  datatype Pc = Idle | Busy(row: AttemptId, attemptsRead: nat, stage: Stage)

  /** `dialled` logs every call of originate, in order, and `duplicates` the attempts for which it replied
    * that the call is already active. `left` holds the attempts that have ever had another status than
    * calling. */
  datatype World = World(
    db: Db,
    pcs: map<WorkerId, Pc>,
    dialled: seq<AttemptId>,
    duplicates: set<AttemptId>,
    left: set<AttemptId>)
  {
    function At(w: WorkerId): Pc {
      if w in pcs then pcs[w] else Idle
    }
  }

  datatype Reply = Accepted(jobId: string) | AlreadyActive | Refused(nonRetryable: bool, message: string)

  datatype Action =
    | Call(step: Step)
    | RecoverLeases(now: Time, leaseMs: nat)
    | Claim(worker: WorkerId, row: AttemptId, attemptsRead: nat, now: Time)
    | ReadAttempt(worker: WorkerId)
    | ReadEvents(worker: WorkerId)
    | CommitMarker(worker: WorkerId, now: Time)
    | Originate(worker: WorkerId, reply: Reply)
    | CommitJob(worker: WorkerId)
    | CommitProcessed(worker: WorkerId)
    | CommitDeadLetter(worker: WorkerId)
    | Throw(worker: WorkerId, nonRetryable: bool, message: string)
    | CommitFailure(worker: WorkerId, now: Time, taskNow: Time, maxAttempts: int)
    | Abandon(worker: WorkerId)

  predicate ByWorker(act: Action) {
    !act.Call? && !act.RecoverLeases?
  }

  /** The world is at a place where the action can happen. An error may be thrown at any stage, and a
    * worker may crash, or fail to record a failure, at any stage. */
  predicate Enabled(w: World, act: Action) {
    match act
    case Call(step) => !step.Worker?
    case RecoverLeases(_, _) => true
    case Claim(worker, row, _, _) =>
      w.At(worker).Idle? && row in w.db.outbox && w.db.outbox[row].status == RowPending && row in w.db.attempts
    case _ =>
      && w.At(act.worker).Busy?
      && w.At(act.worker).row in w.db.outbox && w.At(act.worker).row in w.db.attempts
      && var stage := w.At(act.worker).stage;
        match act
        case ReadAttempt(_) => stage.Claimed?
        case ReadEvents(_) => stage.Ambiguous?
        case CommitMarker(_, _) => stage.Guarded?
        case Originate(_, _) => stage.Dialling?
        case CommitJob(_) => stage.Placed?
        case CommitProcessed(_) => stage.Finishing?
        case CommitDeadLetter(_) => stage.Burying?
        case CommitFailure(_, _, _, _) => stage.Failing?
        case _ => true
  }

  // ---------------------------------------------------------------- what an action does

  predicate Expired(row: OutboxRow, now: Time, leaseMs: nat) {
    row.status == RowProcessing && (row.lockedAt.None? || row.lockedAt.value < now - leaseMs)
  }

  function Unlocked(row: OutboxRow, status: RowStatus): OutboxRow {
    row.(status := status, lockedBy := None, lockedAt := None)
  }

  predicate GivesUp(pc: Pc, maxAttempts: int)
    requires pc.Busy? && pc.stage.Failing?
  {
    pc.stage.nonRetryable || pc.attemptsRead + 1 >= maxAttempts
  }

  /** The outbox rows after an action. No write but the claim and the recovery asks for the lease. */
  function RowsAfter(w: World, act: Action): (rows: map<AttemptId, OutboxRow>)
    requires Enabled(w, act) && !act.Call?
    ensures rows.Keys == w.db.outbox.Keys
  {
    var rows := w.db.outbox;
    match act
    case RecoverLeases(now, leaseMs) =>
      map a | a in rows :: if Expired(rows[a], now, leaseMs) then Unlocked(rows[a], RowPending) else rows[a]
    case Claim(worker, row, _, now) =>
      rows[row := OutboxRow(RowProcessing, rows[row].attempts + 1, Some(worker), Some(now))]
    case CommitJob(worker) => rows[w.At(worker).row := Unlocked(rows[w.At(worker).row], RowProcessed)]
    case CommitProcessed(worker) => rows[w.At(worker).row := Unlocked(rows[w.At(worker).row], RowProcessed)]
    case CommitDeadLetter(worker) => rows[w.At(worker).row := Unlocked(rows[w.At(worker).row], RowFailed)]
    case CommitFailure(worker, _, _, maxAttempts) =>
      var status := if GivesUp(w.At(worker), maxAttempts) then RowFailed else RowPending;
      rows[w.At(worker).row := Unlocked(rows[w.At(worker).row], status)]
    case _ => rows
  }

  function DeliveryOf(w: World, act: Action): (d: Delivery)
    requires Enabled(w, act)
    ensures d.NoChange? || d.attempt in w.db.attempts
  {
    match act
    case CommitMarker(worker, now) => Mark(w.At(worker).row, now)
    case CommitJob(worker) => Accept(w.At(worker).row, w.At(worker).stage.jobId)
    case CommitFailure(worker, now, taskNow, maxAttempts) =>
      if GivesUp(w.At(worker), maxAttempts)
      then Fail(w.At(worker).row, w.At(worker).stage.message, now, taskNow) else NoChange
    case _ => NoChange
  }

  /** The commit an action makes, as a step of the calls. */
  function StepOf(w: World, act: Action): Step
    requires Enabled(w, act)
  {
    if act.Call? then act.step else Worker(DeliveryOf(w, act), RowsAfter(w, act))
  }

  /** The stage after the attempt has been read: a job id or another status than calling ends the
    * delivery, a marker makes it ambiguous. */
  function AfterRead(a: Attempt): Stage {
    if a.providerJobId.Some? then Finishing(HasJob)
    else if a.status != Calling then Finishing(HasLeftCalling)
    else if a.dispatchStartedAt.Some? then Ambiguous
    else Guarded
  }

  function AfterReply(reply: Reply): Stage {
    match reply
    case Accepted(jobId) => Placed(jobId)
    case AlreadyActive => Finishing(AlreadyLive)
    case Refused(nonRetryable, message) => Failing(nonRetryable, message)
  }

  function PcAfter(w: World, act: Action): Pc
    requires Enabled(w, act) && ByWorker(act)
  {
    var pc := w.At(act.worker);
    match act
    case Claim(_, row, attemptsRead, _) => Busy(row, attemptsRead, Claimed)
    case ReadAttempt(_) => pc.(stage := AfterRead(w.db.attempts[pc.row]))
    case ReadEvents(_) => pc.(stage := if pc.row in w.db.witnessed then Finishing(WasWitnessed) else Burying)
    case CommitMarker(_, _) => pc.(stage := Dialling)
    case Originate(_, reply) => pc.(stage := AfterReply(reply))
    case Throw(_, nonRetryable, message) => pc.(stage := Failing(nonRetryable, message))
    case _ => Idle
  }

  function HasLeft(db: Db): set<AttemptId> {
    set a | a in db.attempts && db.attempts[a].status != Calling
  }

  ghost predicate NextWorld(w: World, act: Action, w': World)
    requires WellFormed(w.db)
  {
    && Enabled(w, act)
    && Next(w.db, StepOf(w, act), w'.db)
    && w'.pcs == (if ByWorker(act) then w.pcs[act.worker := PcAfter(w, act)] else w.pcs)
    && w'.dialled == (if act.Originate? then w.dialled + [w.At(act.worker).row] else w.dialled)
    && w'.duplicates ==
         (if act.Originate? && act.reply.AlreadyActive? then w.duplicates + {w.At(act.worker).row} else w.duplicates)
    && w'.left == w.left + HasLeft(w'.db)
  }

  /** The action of a worker, or a recovery, is a function of the world. */
  function After(w: World, act: Action): World
    requires WellFormed(w.db) && Enabled(w, act) && !act.Call?
  {
    var db' := Delivered(w.db, DeliveryOf(w, act)).(outbox := RowsAfter(w, act));
    World(db',
          if ByWorker(act) then w.pcs[act.worker := PcAfter(w, act)] else w.pcs,
          if act.Originate? then w.dialled + [w.At(act.worker).row] else w.dialled,
          if act.Originate? && act.reply.AlreadyActive? then w.duplicates + {w.At(act.worker).row} else w.duplicates,
          w.left + HasLeft(db'))
  }

  lemma AfterIsNext(w: World, act: Action)
    requires WellFormed(w.db) && Enabled(w, act) && !act.Call?
    ensures NextWorld(w, act, After(w, act))
  {
    hide RowsAfter, DeliveryOf, WellFormed, Delivered, PcAfter;
  }

  const START := World(EMPTY, map[], [], {}, {})

  /** A run of any number of workers from the empty world. */
  ghost predicate IsWorldRun(ws: seq<World>, acts: seq<Action>) {
    && |ws| == |acts| + 1
    && ws[0] == START
    && forall i {:trigger acts[i]} :: 0 <= i < |acts| ==> WellFormed(ws[i].db) && NextWorld(ws[i], acts[i], ws[i + 1])
  }

  // ------------------------------------------------------------------ rows across an action

  predicate HoldsLease(db: Db, row: AttemptId, worker: WorkerId) {
    row in db.outbox && db.outbox[row].status == RowProcessing && db.outbox[row].lockedBy == Some(worker)
  }

  /** The assumption about leases: a worker commits the marker only while it holds the lease of the row. */
  predicate Leased(w: World, act: Action) {
    act.CommitMarker? ==> w.At(act.worker).Busy? && HoldsLease(w.db, w.At(act.worker).row, act.worker)
  }

  /** Whether the action commits the marker of this attempt. */
  predicate Marks(w: World, act: Action, a: AttemptId) {
    act.CommitMarker? && w.At(act.worker).Busy? && w.At(act.worker).row == a
  }

  lemma MarkerUnder(db: Db, step: Step, a: AttemptId)
    requires WellFormed(db) && a in db.attempts
    ensures var row' := AttemptUnder(db, step, a);
      && row'.dispatchStartedAt == (if step.Worker? && step.delivery.Mark? && step.delivery.attempt == a
                                    then Some(step.delivery.at) else db.attempts[a].dispatchStartedAt)
      && (db.attempts[a].providerJobId.Some? ==> row'.providerJobId.Some?)
      && row'.channel == db.attempts[a].channel
  {
    hide Earliest, Latest, DurationSeconds, TerminalStatus, NormalizeCause, AnswerTime, JobFailure, WellFormed;
    hide Counts, Misses, Prefilter, TimedOut, ClosingStatus, RecordOutcome, UpdateApplies, HangupApplies;
    hide IsAnswer, IsHangup, IsRecording, IsProgress, IsBackgroundJob, IsFatal, AnswerEvidence;
  }

  /** What the other proofs need to know about the attempts. */
  lemma AttemptsAcross(w: World, act: Action, w': World, a: AttemptId)
    requires WellFormed(w.db) && NextWorld(w, act, w') && a in w.db.attempts
    ensures a in w'.db.attempts
    ensures w'.db.attempts[a].dispatchStartedAt.Some? <==>
            w.db.attempts[a].dispatchStartedAt.Some? || Marks(w, act, a)
    ensures w.db.attempts[a].providerJobId.Some? ==> w'.db.attempts[a].providerJobId.Some?
    ensures w'.db.attempts[a].channel == w.db.attempts[a].channel
  {
    AttemptSteps(w.db, StepOf(w, act), w'.db, a);
    MarkerUnder(w.db, StepOf(w, act), a);
    hide Next, AttemptUnder, WellFormed, RowsAfter, PcAfter, HasLeft;
  }

  lemma WorkerCommits(w: World, act: Action, w': World)
    requires WellFormed(w.db) && NextWorld(w, act, w') && !act.Call?
    ensures w'.db.outbox == RowsAfter(w, act) && w'.db.witnessed == w.db.witnessed
  {
    hide WellFormed, RowsAfter, FailedAttempt, DeliveryOf;
  }

  lemma LeasesAfter(w: World, act: Action, a: AttemptId)
    requires Enabled(w, act) && !act.Call?
    ensures forall worker ::
      (a in RowsAfter(w, act) && RowsAfter(w, act)[a].status == RowProcessing
       && RowsAfter(w, act)[a].lockedBy == Some(worker))
      ==> HoldsLease(w.db, a, worker) || (act.Claim? && act.row == a && act.worker == worker)
  {
  }

  /** What they need to know about the outbox: a lease is only ever given by a claim. */
  lemma RowsAcross(w: World, act: Action, w': World, a: AttemptId)
    requires WellFormed(w.db) && NextWorld(w, act, w')
    ensures a in w.db.outbox ==> a in w'.db.outbox
    ensures forall worker :: HoldsLease(w'.db, a, worker) ==>
      HoldsLease(w.db, a, worker) || (act.Claim? && act.row == a && act.worker == worker)
    ensures a in w.db.witnessed ==> a in w'.db.witnessed
  {
    hide Next, WellFormed, DeliveryOf;
    if act.Call? {
      CallLeavesRows(w.db, act.step, w'.db, a);
    } else {
      WorkerCommits(w, act, w');
      hide NextWorld;
      LeasesAfter(w, act, a);
    }
  }

  lemma CallLeavesRows(db: Db, step: Step, db': Db, a: AttemptId)
    requires WellFormed(db) && Next(db, step, db') && !step.Worker?
    ensures a in db.outbox ==> a in db'.outbox
    ensures a in db.witnessed ==> a in db'.witnessed
    ensures a in db'.outbox ==>
      (a in db.outbox && db'.outbox[a] == db.outbox[a]) || db'.outbox[a] == OutboxRow(RowPending, 0, None, None)
  {
    hide WellFormed, AttemptAfter, TaskAfter, NewAttempt, TasksFollow, SnapshotAttempts, ReapAttempts, Claims;
    hide StatusUpdatedTask, StatusUpdatedAttempt, HungUpTask, HungUpAttempt;
  }

  // ------------------------------------------------------------------ at most one call

  predicate IsAt(w: World, worker: WorkerId, a: AttemptId, stage: Stage) {
    w.At(worker).Busy? && w.At(worker).row == a && w.At(worker).stage == stage
  }

  ghost predicate HasMarker(w: World, a: AttemptId) {
    a in w.db.attempts && w.db.attempts[a].dispatchStartedAt.Some?
  }

  ghost predicate NoRepeats(s: seq<AttemptId>) {
    forall i, j :: 0 <= i < j < |s| ==> s[i] != s[j]
  }

  /** What keeps a second call away: every call and every worker that is about to place one has left the
    * marker, no two workers are about to call for the same attempt, and none of them has been called for. */
  ghost predicate Safe(w: World) {
    && NoRepeats(w.dialled)
    && (forall a :: a in w.dialled ==> HasMarker(w, a))
    && (forall worker, a :: IsAt(w, worker, a, Dialling) ==> HasMarker(w, a) && a !in w.dialled)
    && (forall worker, worker', a ::
          IsAt(w, worker, a, Dialling) && IsAt(w, worker', a, Dialling) ==> worker == worker')
  }

  /** A worker that found no marker is right about it as long as it holds the lease. */
  ghost predicate GuardsRight(w: World) {
    forall worker, a :: IsAt(w, worker, a, Guarded) && HoldsLease(w.db, a, worker) ==> !HasMarker(w, a)
  }

  /** The marker is committed although the attempt has been called for, or another worker is about to call
    * for it. */
  ghost predicate Clash(w: World, act: Action) {
    && act.CommitMarker? && w.At(act.worker).Busy?
    && var a := w.At(act.worker).row;
      a in w.dialled || exists other :: other != act.worker && IsAt(w, other, a, Dialling)
  }

  /** A marker is committed only where there is none. */
  ghost predicate Fresh(w: World, act: Action) {
    act.CommitMarker? && w.At(act.worker).Busy? ==> !HasMarker(w, w.At(act.worker).row)
  }

  /** How the stages of workers change. */
  lemma StagesAcross(w: World, act: Action, w': World, worker: WorkerId, a: AttemptId)
    requires WellFormed(w.db) && NextWorld(w, act, w')
    ensures IsAt(w', worker, a, Dialling) ==>
      || (act.CommitMarker? && act.worker == worker && IsAt(w, worker, a, Guarded))
      || (IsAt(w, worker, a, Dialling) && !(act.Originate? && act.worker == worker))
    ensures IsAt(w', worker, a, Guarded) ==>
      || (act.ReadAttempt? && act.worker == worker && a in w.db.attempts && w.db.attempts[a].dispatchStartedAt.None?)
      || (IsAt(w, worker, a, Guarded) && !(act.Claim? && act.worker == worker))
    ensures act.Originate? ==> IsAt(w, act.worker, w.At(act.worker).row, Dialling)
  {
    hide Next, WellFormed, RowsAfter, DeliveryOf, StepOf;
  }

  lemma MarkersAcross(w: World, act: Action, w': World, a: AttemptId)
    requires WellFormed(w.db) && NextWorld(w, act, w')
    ensures HasMarker(w, a) ==> HasMarker(w', a)
    ensures a in w.db.attempts && HasMarker(w', a) ==> HasMarker(w, a) || Marks(w, act, a)
    ensures Marks(w, act, a) ==> HasMarker(w', a) && IsAt(w, act.worker, a, Guarded)
  {
    if a in w.db.attempts {
      AttemptsAcross(w, act, w', a);
    }
    hide Next, WellFormed, RowsAfter, DeliveryOf, StepOf;
  }

  lemma LogAcross(w: World, act: Action, w': World, a: AttemptId)
    requires WellFormed(w.db) && NextWorld(w, act, w')
    ensures a in w'.dialled ==> a in w.dialled || (act.Originate? && IsAt(w, act.worker, a, Dialling))
  {
    hide Next, WellFormed, RowsAfter, DeliveryOf, StepOf, PcAfter;
  }

  lemma KeepsCalls(w: World, act: Action, w': World)
    requires WellFormed(w.db) && Safe(w) && NextWorld(w, act, w')
    ensures NoRepeats(w'.dialled)
    ensures forall a :: a in w'.dialled ==> HasMarker(w', a)
  {
    if act.Originate? {
      StagesAcross(w, act, w', act.worker, w.At(act.worker).row);
    }
    assert forall a :: a in w'.dialled ==> a in w.dialled || (act.Originate? && a == w.At(act.worker).row);
    forall a | a in w'.dialled
      ensures HasMarker(w', a)
    {
      MarkersAcross(w, act, w', a);
    }
    hide WellFormed, Next, Enabled, RowsAfter, DeliveryOf, HasMarker, StepOf, HoldsLease;
  }

  lemma KeepsDialling(w: World, act: Action, w': World, worker: WorkerId, a: AttemptId)
    requires WellFormed(w.db) && Safe(w) && NextWorld(w, act, w') && !Clash(w, act)
    requires IsAt(w', worker, a, Dialling)
    ensures HasMarker(w', a) && a !in w'.dialled
    ensures forall worker' :: IsAt(w', worker', a, Dialling) ==> worker' == worker
  {
    MarkersAcross(w, act, w', a);
    LogAcross(w, act, w', a);
    StagesAcross(w, act, w', worker, a);
    hide WellFormed, NextWorld, HasMarker, IsAt;
    forall worker' | IsAt(w', worker', a, Dialling)
      ensures worker' == worker
    {
      StagesAcross(w, act, w', worker', a);
    }
  }

  lemma KeepsGuard(w: World, act: Action, w': World, worker: WorkerId, a: AttemptId)
    requires WellFormed(w.db) && GuardsRight(w) && NextWorld(w, act, w') && Leased(w, act)
    requires IsAt(w', worker, a, Guarded) && HoldsLease(w'.db, a, worker)
    ensures !HasMarker(w', a)
  {
    StagesAcross(w, act, w', worker, a);
    RowsAcross(w, act, w', a);
    MarkersAcross(w, act, w', a);
    if Marks(w, act, a) {
      OneStage(w, act, w', worker, a);
    }
    hide WellFormed, Next, Enabled, RowsAfter, DeliveryOf, StepOf;
  }

  /** Whoever is about to commit the marker holds the lease, and nobody else does. */
  lemma OneStage(w: World, act: Action, w': World, worker: WorkerId, a: AttemptId)
    requires WellFormed(w.db) && NextWorld(w, act, w') && Leased(w, act)
    requires Marks(w, act, a) && HoldsLease(w'.db, a, worker)
    ensures worker == act.worker && !IsAt(w', worker, a, Guarded)
  {
  }

  lemma KeepsSafe(w: World, act: Action, w': World)
    requires WellFormed(w.db) && Safe(w) && NextWorld(w, act, w') && !Clash(w, act)
    ensures Safe(w')
  {
    KeepsCalls(w, act, w');
    forall worker, a | IsAt(w', worker, a, Dialling)
      ensures HasMarker(w', a) && a !in w'.dialled
      ensures forall worker' :: IsAt(w', worker', a, Dialling) ==> worker' == worker
    {
      KeepsDialling(w, act, w', worker, a);
    }
    hide WellFormed, NextWorld, HasMarker, IsAt, NoRepeats;
  }

  /** A commit of a marker keeps that exactly if it does not clash. */
  lemma SafeIffNoClash(w: World, act: Action, w': World)
    requires WellFormed(w.db) && Safe(w) && NextWorld(w, act, w') && act.CommitMarker?
    ensures Safe(w') <==> !Clash(w, act)
  {
    if Clash(w, act) {
      var other := ClashesAt(w, act, w');
      hide WellFormed, NextWorld, IsAt, HasMarker, NoRepeats, Clash;
    } else {
      KeepsSafe(w, act, w');
      hide *;
    }
  }

  /** After a clash a worker is about to call for an attempt that has been called for, or two are. */
  lemma ClashesAt(w: World, act: Action, w': World) returns (other: WorkerId)
    requires WellFormed(w.db) && NextWorld(w, act, w') && Clash(w, act)
    ensures var a := w.At(act.worker).row;
      && IsAt(w', act.worker, a, Dialling) && a in w'.db.outbox && a in w'.db.attempts && w'.dialled == w.dialled
      && (a in w.dialled || (other != act.worker && IsAt(w', other, a, Dialling)))
  {
    var a := w.At(act.worker).row;
    RowsAcross(w, act, w', a);
    AttemptsAcross(w, act, w', a);
    other := act.worker;
    if a !in w.dialled {
      other :| other != act.worker && IsAt(w, other, a, Dialling);
    }
    hide WellFormed, Next, RowsAfter, DeliveryOf, StepOf;
  }

  lemma KeepsGuardsRight(w: World, act: Action, w': World)
    requires WellFormed(w.db) && GuardsRight(w) && NextWorld(w, act, w') && Leased(w, act)
    ensures GuardsRight(w')
  {
    forall worker, a | IsAt(w', worker, a, Guarded) && HoldsLease(w'.db, a, worker)
      ensures !HasMarker(w', a)
    {
      KeepsGuard(w, act, w', worker, a);
    }
    hide WellFormed, NextWorld, HasMarker, IsAt, HoldsLease;
  }

  lemma StartIsSafe()
    ensures Safe(START) && GuardsRight(START)
  {
  }

  lemma OneAction(ws: seq<World>, acts: seq<Action>, i: nat)
    requires IsWorldRun(ws, acts) && i < |acts|
    ensures WellFormed(ws[i].db) && NextWorld(ws[i], acts[i], ws[i + 1]) && Enabled(ws[i], acts[i])
    ensures Next(ws[i].db, StepOf(ws[i], acts[i]), ws[i + 1].db)
  {
    assert NextWorld(ws[i], acts[i], ws[i + 1]);
    hide WellFormed, Next, StepOf, Enabled;
  }

  lemma {:induction false} RunsWithoutClashAreSafe(ws: seq<World>, acts: seq<Action>, i: nat)
    requires IsWorldRun(ws, acts) && i < |ws|
    requires forall k :: 0 <= k < i ==> !Clash(ws[k], acts[k])
    ensures Safe(ws[i])
  {
    hide WellFormed, NextWorld, Safe, Clash;
    if i > 0 {
      RunsWithoutClashAreSafe(ws, acts, i - 1);
      OneAction(ws, acts, i - 1);
      KeepsSafe(ws[i - 1], acts[i - 1], ws[i]);
    } else {
      StartIsSafe();
    }
  }

  lemma FreshIsNoClash(w: World, act: Action)
    requires Safe(w) && Fresh(w, act)
    ensures !Clash(w, act)
  {
    hide NoRepeats;
  }

  lemma RunLength(ws: seq<World>, acts: seq<Action>)
    requires IsWorldRun(ws, acts)
    ensures |ws| == |acts| + 1
  {
  }

  lemma {:induction false} LeasedRunsGuardRight(ws: seq<World>, acts: seq<Action>, i: nat)
    requires IsWorldRun(ws, acts) && i < |ws|
    requires forall k :: 0 <= k < i ==> Leased(ws[k], acts[k])
    ensures GuardsRight(ws[i])
  {
    hide WellFormed, NextWorld, GuardsRight, Leased;
    if i > 0 {
      LeasedRunsGuardRight(ws, acts, i - 1);
      assert Leased(ws[i - 1], acts[i - 1]);
      KeepsGuardsRight(ws[i - 1], acts[i - 1], ws[i]);
    } else {
      StartIsSafe();
    }
  }

  /** In every run of any number of workers, with crashes, lost leases and failures anywhere, originate is
    * called at most once for each attempt, as long as no commit of a marker clashes. */
  lemma AtMostOneCallWithoutClash(ws: seq<World>, acts: seq<Action>, i: nat)
    requires IsWorldRun(ws, acts) && i < |ws|
    requires forall k :: 0 <= k < i ==> !Clash(ws[k], acts[k])
    ensures NoRepeats(ws[i].dialled)
  {
    RunsWithoutClashAreSafe(ws, acts, i);
    hide IsWorldRun, NoRepeats;
  }

  /** The run that follows another for `n` actions, and then only calls: workers that are about to place
    * their calls do so. */
  ghost predicate CallsFrom(ws: seq<World>, acts: seq<Action>, n: nat, ws': seq<World>, acts': seq<Action>)
    requires |ws| == |acts| + 1
  {
    && n <= |acts| && n <= |acts'| && |ws'| == |acts'| + 1
    && (forall k :: 0 <= k < n ==> acts'[k] == acts[k])
    && (forall k :: 0 <= k <= n ==> ws'[k] == ws[k])
    && (forall k :: n <= k < |acts'| ==> acts'[k].Originate?)
  }

  ghost predicate CanCallTwice(ws: seq<World>, acts: seq<Action>, n: nat)
    requires |ws| == |acts| + 1
  {
    exists ws': seq<World>, acts': seq<Action> ::
      IsWorldRun(ws', acts') && CallsFrom(ws, acts, n, ws', acts') && !NoRepeats(ws'[|acts'|].dialled)
  }

  /** Exactly then is the protocol safe: a run has no clash if and only if from no point of it can the calls
    * that are about to be placed make a second call for an attempt. */
  lemma NoClashIffNeverCallsTwice(ws: seq<World>, acts: seq<Action>)
    requires IsWorldRun(ws, acts) && |ws| == |acts| + 1
    ensures (forall k :: 0 <= k < |acts| ==> !Clash(ws[k], acts[k])) <==>
            (forall n: nat :: n <= |acts| ==> !CanCallTwice(ws, acts, n))
  {
    hide IsWorldRun, Clash, NoRepeats;
    if forall k :: 0 <= k < |acts| ==> !Clash(ws[k], acts[k]) {
      forall n: nat | n <= |acts|
        ensures !CanCallTwice(ws, acts, n)
      {
        forall ws': seq<World>, acts': seq<Action> | IsWorldRun(ws', acts') && CallsFrom(ws, acts, n, ws', acts')
          ensures NoRepeats(ws'[|acts'|].dialled)
        {
          NoClashInCalls(ws, acts, n, ws', acts');
          AtMostOneCallWithoutClash(ws', acts', |acts'|);
        }
      }
    } else {
      var k :| 0 <= k < |acts| && Clash(ws[k], acts[k]);
      ClashCallsTwice(ws, acts, k);
    }
  }

  lemma NoClashInCalls(ws: seq<World>, acts: seq<Action>, n: nat, ws': seq<World>, acts': seq<Action>)
    requires |ws| == |acts| + 1 && CallsFrom(ws, acts, n, ws', acts')
    requires forall k :: 0 <= k < |acts| ==> !Clash(ws[k], acts[k])
    ensures forall k :: 0 <= k < |acts'| ==> !Clash(ws'[k], acts'[k])
  {
    forall k | 0 <= k < |acts'|
      ensures !Clash(ws'[k], acts'[k])
    {
      if k < n {
        assert ws'[k] == ws[k] && acts'[k] == acts[k];
      }
    }
  }

  lemma PlacesCall(w: World, worker: WorkerId, a: AttemptId) returns (w': World)
    requires WellFormed(w.db) && IsAt(w, worker, a, Dialling) && a in w.db.outbox && a in w.db.attempts
    ensures NextWorld(w, Originate(worker, Accepted("job")), w')
    ensures w'.db == w.db && w'.dialled == w.dialled + [a]
    ensures forall other :: other != worker ==> w'.At(other) == w.At(other)
  {
    AfterIsNext(w, Originate(worker, Accepted("job")));
    w' := After(w, Originate(worker, Accepted("job")));
    hide NextWorld, WellFormed;
  }

  lemma Extended(ws: seq<World>, acts: seq<Action>, act: Action, w: World)
    requires IsWorldRun(ws, acts) && |ws| == |acts| + 1 && WellFormed(ws[|acts|].db) && NextWorld(ws[|acts|], act, w)
    ensures IsWorldRun(ws + [w], acts + [act])
  {
    hide NextWorld, WellFormed;
    var ws', acts' := ws + [w], acts + [act];
    forall i | 0 <= i < |acts'|
      ensures WellFormed(ws'[i].db) && NextWorld(ws'[i], acts'[i], ws'[i + 1])
    {
      if i < |acts| {
        assert acts'[i] == acts[i];
        assert ws'[i] == ws[i] && ws'[i + 1] == ws[i + 1];
      }
    }
  }

  lemma Prefix(ws: seq<World>, acts: seq<Action>, n: nat)
    requires IsWorldRun(ws, acts) && |ws| == |acts| + 1 && n <= |acts|
    ensures IsWorldRun(ws[..n + 1], acts[..n])
  {
    hide NextWorld, WellFormed;
    var ws', acts' := ws[..n + 1], acts[..n];
    forall i | 0 <= i < |acts'|
      ensures WellFormed(ws'[i].db) && NextWorld(ws'[i], acts'[i], ws'[i + 1])
    {
      assert NextWorld(ws[i], acts[i], ws[i + 1]);
    }
    assert ws'[0] == START;
  }

  /** A run goes on with the call that a worker is about to place. */
  lemma CallFollows(ws: seq<World>, acts: seq<Action>, worker: WorkerId, a: AttemptId) returns (w: World)
    requires IsWorldRun(ws, acts) && |ws| == |acts| + 1
    requires WellFormed(ws[|acts|].db) && IsAt(ws[|acts|], worker, a, Dialling)
    requires a in ws[|acts|].db.outbox && a in ws[|acts|].db.attempts
    ensures IsWorldRun(ws + [w], acts + [Originate(worker, Accepted("job"))])
    ensures w.db == ws[|acts|].db && w.dialled == ws[|acts|].dialled + [a]
    ensures forall other :: other != worker ==> w.At(other) == ws[|acts|].At(other)
  {
    w := PlacesCall(ws[|acts|], worker, a);
    Extended(ws, acts, Originate(worker, Accepted("job")), w);
    hide *;
  }

  ghost predicate AboutToRepeat(w: World, worker: WorkerId, a: AttemptId) {
    && WellFormed(w.db) && a in w.db.outbox && a in w.db.attempts
    && IsAt(w, worker, a, Dialling) && a in w.dialled
  }

  lemma RepeatFollows(ws: seq<World>, acts: seq<Action>, n: nat, ws': seq<World>, acts': seq<Action>,
                      worker: WorkerId, a: AttemptId)
    requires |ws| == |acts| + 1 && CallsFrom(ws, acts, n, ws', acts') && IsWorldRun(ws', acts')
    requires AboutToRepeat(ws'[|acts'|], worker, a)
    ensures CanCallTwice(ws, acts, n)
  {
    hide IsWorldRun, NextWorld, WellFormed;
    var w := CallFollows(ws', acts', worker, a);
    RepeatsLast(ws'[|acts'|].dialled, a);
    hide NoRepeats;
    assert CallsFrom(ws, acts, n, ws' + [w], acts' + [Originate(worker, Accepted("job"))]);
  }

  lemma AfterClash(ws: seq<World>, acts: seq<Action>, k: nat) returns (other: WorkerId)
    requires IsWorldRun(ws, acts) && k < |acts| && Clash(ws[k], acts[k])
    ensures var w, a, worker := ws[k + 1], ws[k].At(acts[k].worker).row, acts[k].worker;
      && WellFormed(w.db) && a in w.db.outbox && a in w.db.attempts && IsAt(w, worker, a, Dialling)
      && (a in w.dialled || (other != worker && IsAt(w, other, a, Dialling)))
  {
    OneAction(ws, acts, k);
    other := ClashesAt(ws[k], acts[k], ws[k + 1]);
    CallHistory.KeepsWellFormed(ws[k].db, StepOf(ws[k], acts[k]), ws[k + 1].db);
    hide *;
  }

  /** One call, or two, and an attempt has been called for twice. */
  lemma ClashCallsTwice(ws: seq<World>, acts: seq<Action>, k: nat)
    requires IsWorldRun(ws, acts) && |ws| == |acts| + 1 && k < |acts| && Clash(ws[k], acts[k])
    ensures CanCallTwice(ws, acts, k + 1)
  {
    var other := AfterClash(ws, acts, k);
    Prefix(ws, acts, k + 1);
    var worker, a := acts[k].worker, ws[k].At(acts[k].worker).row;
    var ws', acts' := ws[..k + 2], acts[..k + 1];
    hide IsWorldRun, WellFormed, Clash, CanCallTwice;
    assert CallsFrom(ws, acts, k + 1, ws', acts') && ws'[|acts'|] == ws[k + 1];
    if a !in ws[k + 1].dialled {
      var last := CallFollows(ws', acts', other, a);
      ws', acts' := ws' + [last], acts' + [Originate(other, Accepted("job"))];
      assert CallsFrom(ws, acts, k + 1, ws', acts') && ws'[|acts'|] == last;
    }
    RepeatFollows(ws, acts, k + 1, ws', acts', worker, a);
  }

  lemma RepeatsLast(s: seq<AttemptId>, a: AttemptId)
    requires a in s
    ensures !NoRepeats(s + [a])
  {
    var i :| 0 <= i < |s| && s[i] == a;
    assert (s + [a])[i] == (s + [a])[|s|];
  }

  /** As long as markers are committed under the lease of the row, none is committed over another. */
  lemma LeasedMarkersAreFresh(ws: seq<World>, acts: seq<Action>, i: nat)
    requires IsWorldRun(ws, acts) && i < |acts|
    requires forall k :: 0 <= k <= i ==> Leased(ws[k], acts[k])
    ensures Fresh(ws[i], acts[i])
  {
    LeasedRunsGuardRight(ws, acts, i);
    OneAction(ws, acts, i);
    assert Leased(ws[i], acts[i]);
    hide IsWorldRun, WellFormed, Next, HasMarker, HoldsLease, RowsAfter, DeliveryOf, StepOf;
    if acts[i].CommitMarker? {
      assert IsAt(ws[i], acts[i].worker, ws[i].At(acts[i].worker).row, Guarded);
    }
  }

  lemma {:induction false} FirstClash(ws: seq<World>, acts: seq<Action>, i: nat) returns (k: nat)
    requires |ws| == |acts| + 1 && i <= |acts| && exists j :: 0 <= j < i && Clash(ws[j], acts[j])
    ensures k < i && Clash(ws[k], acts[k]) && forall j :: 0 <= j < k ==> !Clash(ws[j], acts[j])
  {
    hide Clash;
    if exists j :: 0 <= j < i - 1 && Clash(ws[j], acts[j]) {
      k := FirstClash(ws, acts, i - 1);
    } else {
      k := i - 1;
    }
  }

  /** Conditions that are easier to check than a clash: wherever an attempt has been called for twice, a marker
    * was committed over another (`k`), and that or an earlier one (`j`) without the lease of its row. */
  lemma SecondCallHasCause(ws: seq<World>, acts: seq<Action>, i: nat) returns (j: nat, k: nat)
    requires IsWorldRun(ws, acts) && i < |ws| && !NoRepeats(ws[i].dialled)
    ensures j <= k < i && k < |acts|
    ensures acts[k].CommitMarker? && Clash(ws[k], acts[k]) && HasMarker(ws[k], ws[k].At(acts[k].worker).row)
    ensures acts[j].CommitMarker? && !Leased(ws[j], acts[j])
  {
    RunLength(ws, acts);
    hide IsWorldRun, NoRepeats, Safe, HasMarker, HoldsLease;
    if forall m :: 0 <= m < i ==> !Clash(ws[m], acts[m]) {
      AtMostOneCallWithoutClash(ws, acts, i);
    }
    k := FirstClash(ws, acts, i);
    RunsWithoutClashAreSafe(ws, acts, k);
    assert !Fresh(ws[k], acts[k]) by {
      if Fresh(ws[k], acts[k]) {
        FreshIsNoClash(ws[k], acts[k]);
      }
    }
    if forall m :: 0 <= m <= k ==> Leased(ws[m], acts[m]) {
      LeasedMarkersAreFresh(ws, acts, k);
    }
    j :| 0 <= j <= k && !Leased(ws[j], acts[j]);
  }

  // -------------------------------------------------------- what holds without the assumption

  /** The grounds on which a row may be marked processed. */
  ghost predicate Proven(w: World, a: AttemptId, e: Evidence) {
    match e
    case HasJob => a in w.db.attempts && w.db.attempts[a].providerJobId.Some?
    case HasLeftCalling => a in w.left
    case WasWitnessed => a in w.db.witnessed
    case AlreadyLive => a in w.duplicates
  }

  ghost predicate Justified(w: World) {
    && HasLeft(w.db) <= w.left
    && (forall worker, a, e :: IsAt(w, worker, a, Finishing(e)) ==> Proven(w, a, e))
    && (forall a :: a in w.db.outbox && w.db.outbox[a].status == RowProcessed ==> HasProof(w, a))
  }

  ghost predicate HasProof(w: World, a: AttemptId) {
    exists e :: Proven(w, a, e)
  }

  lemma ProofsLast(w: World, act: Action, w': World, a: AttemptId, e: Evidence)
    requires WellFormed(w.db) && NextWorld(w, act, w') && Proven(w, a, e)
    ensures Proven(w', a, e)
  {
    if a in w.db.attempts {
      AttemptsAcross(w, act, w', a);
    }
    RowsAcross(w, act, w', a);
    hide WellFormed, Next, Enabled, RowsAfter, DeliveryOf, StepOf, PcAfter;
  }

  lemma FinishesWithProof(w: World, act: Action, w': World, worker: WorkerId, a: AttemptId, e: Evidence)
    requires WellFormed(w.db) && Justified(w) && NextWorld(w, act, w') && IsAt(w', worker, a, Finishing(e))
    ensures Proven(w', a, e)
  {
    if act.Originate? && act.worker == worker {
      AlreadyLiveIsProof(w, act, w', a, e);
      hide WellFormed, NextWorld, Proven, Justified, IsAt;
    } else {
      ReadsWithProof(w, act, w', worker, a, e);
      hide WellFormed, NextWorld, Proven, Justified, IsAt;
      ProofsLast(w, act, w', a, e);
    }
  }

  /** Of the replies to a call only the one that it is already active finishes a delivery. */
  lemma AlreadyLiveIsProof(w: World, act: Action, w': World, a: AttemptId, e: Evidence)
    requires WellFormed(w.db) && NextWorld(w, act, w') && act.Originate? && IsAt(w', act.worker, a, Finishing(e))
    ensures Proven(w', a, e)
  {
    hide WellFormed, Next, RowsAfter, DeliveryOf, StepOf, HasLeft, AfterRead;
  }

  lemma LeftCalling(db: Db, a: AttemptId)
    ensures a in HasLeft(db) <==> a in db.attempts && db.attempts[a].status != Calling
  {
  }

  /** Any other action leaves a worker to finish only if it was about to, or has just read the grounds. */
  lemma ReadsWithProof(w: World, act: Action, w': World, worker: WorkerId, a: AttemptId, e: Evidence)
    requires WellFormed(w.db) && Justified(w) && NextWorld(w, act, w') && IsAt(w', worker, a, Finishing(e))
    requires !act.Originate? || act.worker != worker
    ensures Proven(w, a, e)
  {
    LeftCalling(w.db, a);
    hide WellFormed, Next, RowsAfter, DeliveryOf, StepOf, HasProof, HasLeft;
    if !IsAt(w, worker, a, Finishing(e)) {
      assert ByWorker(act) && act.worker == worker && PcAfter(w, act) == w'.At(worker);
      assert act.ReadAttempt? || act.ReadEvents?;
    }
  }

  /** A row becomes processed by one of two commits of the worker that delivers it. */
  lemma NewlyProcessed(w: World, act: Action, w': World, a: AttemptId)
    requires WellFormed(w.db) && NextWorld(w, act, w')
    requires a in w'.db.outbox && w'.db.outbox[a].status == RowProcessed
    requires a !in w.db.outbox || w.db.outbox[a].status != RowProcessed
    ensures (act.CommitProcessed? || act.CommitJob?) && w.At(act.worker).Busy? && w.At(act.worker).row == a
    ensures act.CommitProcessed? ==> w.At(act.worker).stage.Finishing?
  {
    if act.Call? {
      CallLeavesRows(w.db, act.step, w'.db, a);
    } else {
      WorkerCommits(w, act, w');
    }
    hide Next, WellFormed, DeliveryOf, StepOf, PcAfter;
  }

  lemma ProcessedWithProof(w: World, act: Action, w': World, a: AttemptId)
    requires WellFormed(w.db) && Justified(w) && NextWorld(w, act, w')
    requires a in w'.db.outbox && w'.db.outbox[a].status == RowProcessed
    ensures HasProof(w', a)
  {
    hide WellFormed, NextWorld, Proven;
    if a in w.db.outbox && w.db.outbox[a].status == RowProcessed {
      var e :| Proven(w, a, e);
      ProofsLast(w, act, w', a, e);
    } else {
      NewlyProcessed(w, act, w', a);
      if act.CommitProcessed? {
        var e := w.At(act.worker).stage.evidence;
        assert IsAt(w, act.worker, a, Finishing(e));
        ProofsLast(w, act, w', a, e);
      } else {
        JobIsProof(w, act, w', a);
      }
    }
  }

  lemma JobIsProof(w: World, act: Action, w': World, a: AttemptId)
    requires WellFormed(w.db) && NextWorld(w, act, w') && act.CommitJob? && w.At(act.worker).row == a
    ensures Proven(w', a, HasJob)
  {
    AttemptSteps(w.db, StepOf(w, act), w'.db, a);
    hide WellFormed, Next, RowsAfter;
  }

  lemma KeepsJustified(w: World, act: Action, w': World)
    requires WellFormed(w.db) && Justified(w) && NextWorld(w, act, w')
    ensures Justified(w')
  {
    assert HasLeft(w'.db) <= w'.left;
    hide WellFormed, NextWorld, Proven, HasProof, IsAt, HasLeft;
    forall worker, a, e | IsAt(w', worker, a, Finishing(e))
      ensures Proven(w', a, e)
    {
      FinishesWithProof(w, act, w', worker, a, e);
    }
    forall a | a in w'.db.outbox && w'.db.outbox[a].status == RowProcessed
      ensures HasProof(w', a)
    {
      ProcessedWithProof(w, act, w', a);
    }
  }

  /** A row is marked processed only on evidence: a job id, an attempt that has left calling, a recorded
    * provider event, or a reply that the call is already active. This needs no assumption. */
  lemma {:induction false} ProcessedRowsAreJustified(ws: seq<World>, acts: seq<Action>, i: nat)
    requires IsWorldRun(ws, acts) && i < |ws|
    ensures Justified(ws[i])
  {
    if i > 0 {
      ProcessedRowsAreJustified(ws, acts, i - 1);
      OneAction(ws, acts, i - 1);
      hide WellFormed, NextWorld, Justified;
      KeepsJustified(ws[i - 1], acts[i - 1], ws[i]);
    }
  }

  /** Only telephone attempts have outbox rows, and only they are ever called for. */
  ghost predicate OnlyTelephone(w: World) {
    && (forall a :: a in w.dialled ==> a in w.db.attempts && w.db.attempts[a].channel == FreeSwitch)
    && (forall worker :: w.At(worker).Busy? ==> w.At(worker).row in w.db.outbox)
  }

  lemma RowsStay(w: World, act: Action, w': World, worker: WorkerId)
    requires WellFormed(w.db) && NextWorld(w, act, w') && w'.At(worker).Busy?
    requires w.At(worker).Busy? ==> w.At(worker).row in w.db.outbox
    ensures w'.At(worker).row in w.db.outbox
  {
    hide Next, RowsAfter, DeliveryOf, StepOf, WellFormed, AfterRead, AfterReply;
  }

  lemma KeepsTelephone(w: World, act: Action, w': World)
    requires WellFormed(w.db) && OnlyTelephone(w) && NextWorld(w, act, w')
    ensures OnlyTelephone(w')
  {
    forall a | a in w'.dialled
      ensures a in w'.db.attempts && w'.db.attempts[a].channel == FreeSwitch
    {
      assert a in w.dialled || (act.Originate? && a == w.At(act.worker).row);
      AttemptsAcross(w, act, w', a);
    }
    forall worker | w'.At(worker).Busy?
      ensures w'.At(worker).row in w'.db.outbox
    {
      assert w'.At(worker).row in w.db.outbox by {
        RowsStay(w, act, w', worker);
      }
      RowsAcross(w, act, w', w'.At(worker).row);
    }
    hide Next, RowsAfter, DeliveryOf, StepOf, Counted, Distinct;
  }

  lemma {:induction false} NeverCallsForWeb(ws: seq<World>, acts: seq<Action>, i: nat)
    requires IsWorldRun(ws, acts) && i < |ws|
    ensures OnlyTelephone(ws[i])
  {
    if i > 0 {
      NeverCallsForWeb(ws, acts, i - 1);
      KeepsTelephone(ws[i - 1], acts[i - 1], ws[i]);
      hide WellFormed, NextWorld, OnlyTelephone;
    }
  }

  lemma MarkerStays(ws: seq<World>, acts: seq<Action>, i: nat, a: AttemptId)
    requires IsWorldRun(ws, acts) && i < |acts| && HasMarker(ws[i], a)
    ensures HasMarker(ws[i + 1], a)
  {
    OneAction(ws, acts, i);
    MarkersAcross(ws[i], acts[i], ws[i + 1], a);
    hide *;
  }

  /** A marker is never cleared. */
  lemma {:induction false} MarkersLast(ws: seq<World>, acts: seq<Action>, i: nat, j: nat, a: AttemptId)
    requires IsWorldRun(ws, acts) && i <= j < |ws| && HasMarker(ws[i], a)
    ensures HasMarker(ws[j], a)
    decreases j - i
  {
    hide HasMarker, NextWorld, WellFormed;
    if i < j {
      MarkersLast(ws, acts, i, j - 1, a);
      MarkerStays(ws, acts, j - 1, a);
    }
  }

  /** So no delivery, by any worker, that reads the attempt after that gets to another marker and another
    * call: a retry after a failed call finishes, or is ambiguous. */
  lemma RedeliveryDoesNotDial(ws: seq<World>, acts: seq<Action>, i: nat, j: nat, a: AttemptId)
    requires IsWorldRun(ws, acts) && i <= j < |acts| && HasMarker(ws[i], a)
    requires acts[j].ReadAttempt? && ws[j].At(acts[j].worker).Busy? && ws[j].At(acts[j].worker).row == a
    ensures var pc := ws[j + 1].At(acts[j].worker);
      pc.Busy? && pc.row == a && (pc.stage.Ambiguous? || pc.stage.Finishing?)
  {
    MarkersLast(ws, acts, i, j, a);
    OneAction(ws, acts, j);
    hide Next, WellFormed, RowsAfter, DeliveryOf, StepOf, IsWorldRun;
  }

  /** A run of the workers is a run of the calls, so that all that holds of those holds here. */
  lemma WorldRunsAreCallRuns(ws: seq<World>, acts: seq<Action>) returns (dbs: seq<Db>, steps: seq<Step>)
    requires IsWorldRun(ws, acts)
    ensures IsRun(dbs, steps) && |dbs| == |ws| && |steps| == |acts|
    ensures forall i :: 0 <= i < |ws| ==> dbs[i] == ws[i].db
    ensures forall i :: 0 <= i < |acts| ==> Enabled(ws[i], acts[i]) && steps[i] == StepOf(ws[i], acts[i])
  {
    forall i | 0 <= i < |acts|
      ensures WellFormed(ws[i].db) && Enabled(ws[i], acts[i]) && Next(ws[i].db, StepOf(ws[i], acts[i]), ws[i + 1].db)
    {
      OneAction(ws, acts, i);
    }
    dbs := seq(|ws|, i requires 0 <= i < |ws| => ws[i].db);
    steps := seq(|acts|, i requires 0 <= i < |acts| => StepOf(ws[i], acts[i]));
    hide Next, WellFormed, StepOf, Enabled, NextWorld;
    forall i | 0 <= i < |steps|
      ensures WellFormed(dbs[i]) && Next(dbs[i], steps[i], dbs[i + 1])
    {
      assert steps[i] == StepOf(ws[i], acts[i]) && dbs[i] == ws[i].db && dbs[i + 1] == ws[i + 1].db;
    }
    assert dbs[0] == EMPTY;
  }

  // ------------------------------------------------- what becomes of an ambiguous dispatch

  lemma {:induction false} StartStays(ws: seq<World>, acts: seq<Action>, i: nat, j: nat, a: AttemptId)
    requires IsWorldRun(ws, acts) && i <= j < |ws| && a in ws[i].db.attempts
    ensures a in ws[j].db.attempts && ws[j].db.attempts[a].startedAt == ws[i].db.attempts[a].startedAt
    decreases j - i
  {
    hide NextWorld, WellFormed, Next, StepOf, Enabled;
    if i < j {
      StartStays(ws, acts, i, j - 1, a);
      OneAction(ws, acts, j - 1);
      hide IsWorldRun;
      AttemptSteps(ws[j - 1].db, StepOf(ws[j - 1], acts[j - 1]), ws[j].db, a);
      KeepsIdentity(ws[j - 1].db, StepOf(ws[j - 1], acts[j - 1]), a);
      hide AttemptUnder;
    }
  }

  lemma TickLeavesNoStuckCall(db: Db, now: Time, timeouts: Timeouts, db': Db, a: AttemptId)
    requires WellFormed(db) && Next(db, Reap(now, timeouts), db') && a in db.attempts
    requires now - db.attempts[a].startedAt > timeouts.callingMs
    ensures a in db'.attempts && db'.attempts[a].status != Calling
    ensures db.attempts[a].status == Calling ==> Terminal(db'.attempts[a].status)
  {
    AttemptSteps(db, Reap(now, timeouts), db', a);
    hide Next, WellFormed, ReapAttempt;
    ReapsOverdue(db.attempts[a], now, timeouts);
  }

  lemma ReapsOverdue(a: Attempt, now: Time, timeouts: Timeouts)
    requires now - a.startedAt > timeouts.callingMs
    ensures ReapAttempt(a, now, timeouts).status != Calling
    ensures a.status == Calling ==> Terminal(ReapAttempt(a, now, timeouts).status)
  {
    hide NormalizeCause, DurationSeconds, TerminalStatus;
  }

  /** In every run in which an ambiguous dispatch is dead-lettered, any later tick of the reaper that finds
    * its limit past leaves the attempt ended if it was still calling, and not calling in any case. */
  lemma DeadLetteredCallIsReaped(ws: seq<World>, acts: seq<Action>, i: nat, j: nat)
    requires IsWorldRun(ws, acts) && i < j < |acts| && acts[i].CommitDeadLetter?
    requires acts[j].Call? && acts[j].step.Reap?
    requires ws[i].At(acts[i].worker).Busy? && ws[i].At(acts[i].worker).row in ws[i].db.attempts
    requires acts[j].step.now - ws[i].db.attempts[ws[i].At(acts[i].worker).row].startedAt >
             acts[j].step.timeouts.callingMs
    ensures var a := ws[i].At(acts[i].worker).row;
      && a in ws[j].db.attempts && a in ws[j + 1].db.attempts
      && ws[j + 1].db.attempts[a].status != Calling
      && (ws[j].db.attempts[a].status == Calling ==> Terminal(ws[j + 1].db.attempts[a].status))
  {
    var a := ws[i].At(acts[i].worker).row;
    StartStays(ws, acts, i, j, a);
    OneAction(ws, acts, j);
    hide IsWorldRun, NextWorld, WellFormed, Next;
    TickLeavesNoStuckCall(ws[j].db, acts[j].step.now, acts[j].step.timeouts, ws[j + 1].db, a);
  }
}
