/** The task service and any number of outbox workers, as objects over one store, taking turns. */
module Pipeline {
  import opened CallDb
  import opened CallSteps
  import opened CallStore
  import opened DispatchOutbox
  import opened OutboxWorkers
  import CallHistory

  /** A turn of worker `k`, or, for a commit of the task service, of no worker in particular. */
  datatype Turn = Turn(k: nat, act: Action)

  /** A step of the task service with ids that are new and rows that exist. */
  predicate Served(db: Db, step: Step) {
    match step
    case Create(t) => t !in db.tasks
    case Dispatch(_, _, a, _, _, _) => a !in db.attempts
    case Update(t, target, _, _, _) => TargetOf(db, t, target)
    case Hangup(t, target, _, _) => TargetOf(db, t, target)
    case Worker(_, _) => false
    case _ => true
  }

  method Serve(store: TasksService, step: Step)
    requires WellFormed(store.Rows()) && Served(store.Rows(), step)
    modifies store
    ensures CallSteps.Next(old(store.Rows()), step, store.Rows())
  {
    hide WellFormed, SnapshotEffect, ReapEffect, RecordEvent, StatusUpdated, HungUp, Dispatched;
    match step
    case Create(t) => store.Create(t);
    case Dispatch(t, expected, a, channel, now, startedAt) =>
      var _ := store.Dispatch(t, expected, a, channel, now, startedAt);
    case Event(a, ev) => var _ := store.RecordProviderCallEvent(a, ev);
    case TakeSnapshot(s, graceMs) => store.RecordProviderActiveSnapshot(s, graceMs);
    case Reap(now, timeouts) => store.ReapStaleActiveCalls(now, timeouts);
    case Update(t, target, read, next, now) => var _ := store.UpdateStatus(t, target, read, next, now);
    case Hangup(t, target, calledAtRead, now) => var _ := store.FinalizeLocalHangup(t, target, calledAtRead, now);
  }

  method Perform(worker: OutboxWorker, act: Action)
    requires ByWorker(act) && worker.Ready(act)
    modifies worker`pc, worker.store`attempts, worker.store`tasks, worker.store`outbox
    ensures Agree(worker.Seen(), After(old(worker.Seen()), act), worker.workerId)
  {
    hide WellFormed, After, Agree;
    match act
    case Claim(_, row, attemptsRead, now) => var _ := worker.ClaimRow(row, attemptsRead, now);
    case ReadAttempt(_) => worker.Deliver();
    case ReadEvents(_) => worker.Disambiguate();
    case CommitMarker(_, now) => worker.StartDispatch(now);
    case Originate(_, reply) => worker.Replied(reply);
    case CommitJob(_) => worker.RecordJob();
    case CommitProcessed(_) => worker.MarkDispatchProcessed();
    case CommitDeadLetter(_) => worker.DeadLetterDispatch();
    case Throw(_, nonRetryable, message) => worker.Throws(nonRetryable, message);
    case CommitFailure(_, now, taskNow, maxAttempts) => worker.HandleFailure(now, taskNow, maxAttempts);
    case Abandon(_) => worker.Abandons();
  }

  // ------------------------------------------------------------------ the objects and the protocol

  /** Workers with names of their own, over one store. */
  ghost predicate Team(store: TasksService, workers: seq<OutboxWorker>) {
    && (forall k :: 0 <= k < |workers| ==> workers[k].store == store)
    && (forall j, k :: 0 <= j < k < |workers| ==> workers[j].workerId != workers[k].workerId)
  }

  /** The world has the rows of the store, and each worker at its stage. */
  ghost predicate Shows(w: World, store: TasksService, workers: seq<OutboxWorker>)
    reads store, workers
  {
    w.db == store.Rows() && forall k :: 0 <= k < |workers| ==> w.At(workers[k].workerId) == workers[k].pc
  }

  predicate Possible(store: TasksService, workers: seq<OutboxWorker>, turn: Turn)
    reads store, workers, set k | 0 <= k < |workers| :: workers[k].store
  {
    if turn.act.Call? then Served(store.Rows(), turn.act.step) else
    && turn.k < |workers|
    && (ByWorker(turn.act) ==> turn.act.worker == workers[turn.k].workerId)
    && Enabled(workers[turn.k].Seen(), turn.act)
  }

  method TakeTurn(store: TasksService, workers: seq<OutboxWorker>, turn: Turn, ghost w: World) returns (ghost w': World)
    requires Team(store, workers) && Shows(w, store, workers) && WellFormed(w.db) && Possible(store, workers, turn)
    modifies store, workers
    ensures NextWorld(w, turn.act, w') && WellFormed(w'.db) && Shows(w', store, workers)
  {
    if turn.act.Call? {
      w' := TakeCall(store, workers, turn.act.step, w);
    } else if turn.act.RecoverLeases? {
      w' := TakeRecovery(store, workers, turn, w);
    } else {
      w' := TakeStage(store, workers, turn, w);
    }
  }

  method TakeCall(store: TasksService, workers: seq<OutboxWorker>, step: Step, ghost w: World) returns (ghost w': World)
    requires Team(store, workers) && Shows(w, store, workers) && WellFormed(w.db) && Served(store.Rows(), step)
    modifies store
    ensures NextWorld(w, Call(step), w') && WellFormed(w'.db) && Shows(w', store, workers)
  {
    Serve(store, step);
    hide WellFormed, CallSteps.Next;
    w' := World(store.Rows(), w.pcs, w.dialled, w.duplicates, w.left + HasLeft(store.Rows()));
    CallHistory.KeepsWellFormed(w.db, step, w'.db);
  }

  method TakeRecovery(store: TasksService, workers: seq<OutboxWorker>, turn: Turn, ghost w: World)
    returns (ghost w': World)
    requires Team(store, workers) && Shows(w, store, workers) && WellFormed(w.db)
    requires turn.act.RecoverLeases? && turn.k < |workers|
    modifies store`outbox
    ensures NextWorld(w, turn.act, w') && WellFormed(w'.db) && Shows(w', store, workers)
  {
    ghost var seen := workers[turn.k].Seen();
    workers[turn.k].RecoverExpiredLeases(turn.act.now, turn.act.leaseMs);
    w' := After(w, turn.act);
    RecoveryIsShared(w, seen, turn.act);
    hide WellFormed, CallSteps.Next, NextWorld, After;
  }

  lemma RecoveryIsShared(w: World, seen: World, act: Action)
    requires WellFormed(w.db) && act.RecoverLeases? && w.db == seen.db
    ensures After(w, act).db == After(seen, act).db && After(w, act).pcs == w.pcs
    ensures NextWorld(w, act, After(w, act)) && WellFormed(After(w, act).db)
  {
    AfterIsNext(w, act);
    CallHistory.KeepsWellFormed(w.db, StepOf(w, act), After(w, act).db);
    hide WellFormed, CallSteps.Next, HasLeft;
  }

  method TakeStage(store: TasksService, workers: seq<OutboxWorker>, turn: Turn, ghost w: World)
    returns (ghost w': World)
    requires Team(store, workers) && Shows(w, store, workers) && WellFormed(w.db)
    requires turn.k < |workers| && ByWorker(turn.act) && turn.act.worker == workers[turn.k].workerId
    requires Enabled(workers[turn.k].Seen(), turn.act)
    modifies store, workers
    ensures NextWorld(w, turn.act, w') && WellFormed(w'.db) && Shows(w', store, workers)
  {
    hide WellFormed, Enabled, NextWorld, After, CallSteps.Next;
    var worker := workers[turn.k];
    ghost var seen := worker.Seen();
    assert Agree(seen, w, turn.act.worker);
    w' := StageFollows(seen, w, turn.act);
    Perform(worker, turn.act);
    assert store.Rows() == w'.db && worker.pc == w'.At(worker.workerId);
    hide ByWorker, Agree;
    forall k | 0 <= k < |workers|
      ensures w'.At(workers[k].workerId) == workers[k].pc
    {
      assert k != turn.k ==> workers[k] != worker;
    }
  }

  /** The worker's own view and the whole world make the same step. */
  lemma StageFollows(seen: World, w: World, act: Action) returns (w': World)
    requires WellFormed(w.db) && ByWorker(act) && Agree(seen, w, act.worker) && Enabled(seen, act)
    ensures NextWorld(w, act, w') && WellFormed(w'.db)
    ensures Agree(After(seen, act), w', act.worker)
    ensures forall other :: other != act.worker ==> w'.At(other) == w.At(other)
  {
    WorkersActLocally(seen, w, act);
    w' := After(w, act);
    CallHistory.KeepsWellFormed(w.db, StepOf(w, act), w'.db);
    hide WellFormed, CallSteps.Next, After, Enabled, StepOf;
  }

  /** Whatever turns the service and the workers take, from an empty store and with all workers idle, they
    * make a run of the protocol. Turns that are not possible when they come are passed over. */
  method TakeTurns(store: TasksService, workers: seq<OutboxWorker>, turns: seq<Turn>)
    returns (ghost ws: seq<World>, ghost acts: seq<Action>)
    requires Team(store, workers) && store.Rows() == EMPTY && forall k :: 0 <= k < |workers| ==> workers[k].pc == Idle
    modifies store, workers
    ensures IsWorldRun(ws, acts) && |ws| == |acts| + 1 && Shows(ws[|acts|], store, workers)
  {
    ws, acts := [START], [];
    StartsEmpty();
    hide WellFormed, NextWorld, IsWorldRun;
    for n := 0 to |turns|
      invariant |ws| == |acts| + 1 && IsWorldRun(ws, acts) && WellFormed(ws[|acts|].db)
      invariant Shows(ws[|acts|], store, workers)
    {
      if Possible(store, workers, turns[n]) {
        ghost var w := TakeTurn(store, workers, turns[n], ws[|acts|]);
        Extended(ws, acts, turns[n].act, w);
        ws, acts := ws + [w], acts + [turns[n].act];
      }
    }
  }

  lemma StartsEmpty()
    ensures IsWorldRun([START], []) && WellFormed(EMPTY)
  {
  }
}
