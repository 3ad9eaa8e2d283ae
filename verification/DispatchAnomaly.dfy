/** A run in which one attempt is called for twice, and one in which a late failure fails the wrong call. */
module DispatchAnomaly {
  import opened Options
  import opened CallRows
  import opened ProviderEvents
  import opened CallDb
  import opened CallSteps
  import opened DispatchOutbox

  /** A world with one telephone attempt, `a`, of one task. */
  function State(marker: Option<Time>, row: OutboxRow, pcs: map<WorkerId, Pc>, dialled: seq<AttemptId>): World {
    var attempt := NewAttempt("t", 1, FreeSwitch, 0, 0).(dispatchStartedAt := marker);
    var task := NEW_TASK.(status := Calling, attemptCount := 1);
    World(Db(map["t" := task], map["a" := attempt], map[], {}, map["a" := row]), pcs, dialled, {}, {})
  }

  predicate IdleIn(pcs: map<WorkerId, Pc>, worker: WorkerId) {
    worker in pcs ==> pcs[worker].Idle?
  }

  predicate StageIn(pcs: map<WorkerId, Pc>, worker: WorkerId, stage: Stage) {
    worker in pcs && pcs[worker].Busy? && pcs[worker].row == "a" && pcs[worker].stage == stage
  }

  ghost predicate Steps(w: World, act: Action, w': World) {
    WellFormed(w.db) && NextWorld(w, act, w')
  }

  lemma Fine(marker: Option<Time>, row: OutboxRow, pcs: map<WorkerId, Pc>, dialled: seq<AttemptId>)
    ensures WellFormed(State(marker, row, pcs, dialled).db) && HasLeft(State(marker, row, pcs, dialled).db) == {}
  {
  }

  lemma Claims(row: OutboxRow, pcs: map<WorkerId, Pc>, worker: WorkerId, n: nat, now: Time)
    requires IdleIn(pcs, worker) && row.status == RowPending
    ensures Steps(State(None, row, pcs, []), Claim(worker, "a", n, now),
                  State(None, OutboxRow(RowProcessing, row.attempts + 1, Some(worker), Some(now)),
                        pcs[worker := Busy("a", n, Claimed)], []))
  {
    Fine(None, row, pcs, []);
    Fine(None, OutboxRow(RowProcessing, row.attempts + 1, Some(worker), Some(now)),
         pcs[worker := Busy("a", n, Claimed)], []);
    hide WellFormed, HasLeft, NextWorld;
    AfterIsNext(State(None, row, pcs, []), Claim(worker, "a", n, now));
  }

  lemma Recovers(row: OutboxRow, pcs: map<WorkerId, Pc>, now: Time, leaseMs: nat)
    requires Expired(row, now, leaseMs)
    ensures Steps(State(None, row, pcs, []), RecoverLeases(now, leaseMs),
                  State(None, Unlocked(row, RowPending), pcs, []))
  {
    Fine(None, row, pcs, []);
    Fine(None, Unlocked(row, RowPending), pcs, []);
    hide WellFormed, HasLeft;
  }

  lemma Throws(row: OutboxRow, pcs: map<WorkerId, Pc>, worker: WorkerId, message: string)
    requires worker in pcs && pcs[worker].Busy? && pcs[worker].row == "a"
    ensures Steps(State(None, row, pcs, []), Throw(worker, false, message),
                  State(None, row, pcs[worker := pcs[worker].(stage := Failing(false, message))], []))
  {
    Fine(None, row, pcs, []);
    hide WellFormed, HasLeft;
  }

  lemma FindsNoMarker(row: OutboxRow, pcs: map<WorkerId, Pc>, worker: WorkerId)
    requires StageIn(pcs, worker, Claimed)
    ensures Steps(State(None, row, pcs, []), ReadAttempt(worker),
                  State(None, row, pcs[worker := pcs[worker].(stage := Guarded)], []))
  {
    Fine(None, row, pcs, []);
    hide WellFormed, HasLeft;
  }

  lemma ReportsFailure(row: OutboxRow, pcs: map<WorkerId, Pc>, worker: WorkerId, message: string, now: Time, max: int)
    requires StageIn(pcs, worker, Failing(false, message)) && pcs[worker].attemptsRead + 1 < max
    ensures Steps(State(None, row, pcs, []), CommitFailure(worker, now, now, max),
                  State(None, Unlocked(row, RowPending), pcs[worker := Idle], []))
  {
    Fine(None, row, pcs, []);
    Fine(None, Unlocked(row, RowPending), pcs, []);
    hide WellFormed, HasLeft;
  }

  lemma LeavesMarker(marker: Option<Time>, row: OutboxRow, pcs: map<WorkerId, Pc>, dialled: seq<AttemptId>,
                     worker: WorkerId, now: Time)
    requires StageIn(pcs, worker, Guarded)
    ensures Steps(State(marker, row, pcs, dialled), CommitMarker(worker, now),
                  State(Some(now), row, pcs[worker := pcs[worker].(stage := Dialling)], dialled))
  {
    Fine(marker, row, pcs, dialled);
    Fine(Some(now), row, pcs, dialled);
    hide WellFormed, HasLeft;
  }

  lemma Calls(marker: Option<Time>, row: OutboxRow, pcs: map<WorkerId, Pc>, dialled: seq<AttemptId>,
              worker: WorkerId, jobId: string)
    requires StageIn(pcs, worker, Dialling)
    ensures Steps(State(marker, row, pcs, dialled), Originate(worker, Accepted(jobId)),
                  State(marker, row, pcs[worker := pcs[worker].(stage := Placed(jobId))], dialled + ["a"]))
  {
    Fine(marker, row, pcs, dialled);
    hide WellFormed, HasLeft;
  }

  // -------------------------------------------------------------------------- the run

  const ERROR := "database unavailable"
  const FREE0 := OutboxRow(RowPending, 0, None, None)
  const LOCKED1 := OutboxRow(RowProcessing, 1, Some("w1"), Some(0))
  const LOCKED2 := OutboxRow(RowProcessing, 2, Some("w2"), Some(70_000))
  const LOCKED3 := OutboxRow(RowProcessing, 3, Some("w3"), Some(73_000))

  const PCS1: map<WorkerId, Pc> := map["w1" := Busy("a", 0, Claimed)]
  const PCS2 := PCS1["w2" := Busy("a", 1, Claimed)]
  const PCS3 := PCS2["w1" := Busy("a", 0, Failing(false, ERROR))]
  const PCS4 := PCS3["w2" := Busy("a", 1, Guarded)]
  const PCS5 := PCS4["w1" := Idle]
  const PCS6 := PCS5["w3" := Busy("a", 2, Claimed)]
  const PCS7 := PCS6["w3" := Busy("a", 2, Guarded)]
  const PCS8 := PCS7["w2" := Busy("a", 1, Dialling)]
  const PCS9 := PCS8["w2" := Busy("a", 1, Placed("j2"))]
  const PCS10 := PCS9["w3" := Busy("a", 2, Dialling)]
  const PCS11 := PCS10["w3" := Busy("a", 2, Placed("j3"))]

  const ACTS: seq<Action> := [
    Call(Create("t")),
    Call(Dispatch("t", Pending, "a", FreeSwitch, 0, 0)),
    Claim("w1", "a", 0, 0),
    RecoverLeases(70_000, 60_000),
    Claim("w2", "a", 1, 70_000),
    Throw("w1", false, ERROR),
    ReadAttempt("w2"),
    CommitFailure("w1", 70_001, 70_001, 5),
    Claim("w3", "a", 2, 73_000),
    ReadAttempt("w3"),
    CommitMarker("w2", 73_001),
    Originate("w2", Accepted("j2")),
    CommitMarker("w3", 73_002),
    Originate("w3", Accepted("j3"))
  ]

  const WORLDS: seq<World> := [
    START,
    World(EMPTY.PutTask("t", NEW_TASK), map[], [], {}, {}),
    State(None, FREE0, map[], []),
    State(None, LOCKED1, PCS1, []),
    State(None, Unlocked(LOCKED1, RowPending), PCS1, []),
    State(None, LOCKED2, PCS2, []),
    State(None, LOCKED2, PCS3, []),
    State(None, LOCKED2, PCS4, []),
    State(None, Unlocked(LOCKED2, RowPending), PCS5, []),
    State(None, LOCKED3, PCS6, []),
    State(None, LOCKED3, PCS7, []),
    State(Some(73_001), LOCKED3, PCS8, []),
    State(Some(73_001), LOCKED3, PCS9, ["a"]),
    State(Some(73_002), LOCKED3, PCS10, ["a"]),
    State(Some(73_002), LOCKED3, PCS11, ["a", "a"])
  ]

  lemma Creates()
    ensures Steps(START, Call(Create("t")), World(EMPTY.PutTask("t", NEW_TASK), map[], [], {}, {}))
  {
  }

  lemma IsDispatched()
    ensures Steps(World(EMPTY.PutTask("t", NEW_TASK), map[], [], {}, {}),
                  Call(Dispatch("t", Pending, "a", FreeSwitch, 0, 0)), State(None, FREE0, map[], []))
  {
    Fine(None, FREE0, map[], []);
    hide HasLeft;
    assert Dispatched(EMPTY.PutTask("t", NEW_TASK), "t", "a", FreeSwitch, 0, 0) == State(None, FREE0, map[], []).db;
  }

  /** The second worker takes over from the first, whose lease has run out. */
  lemma TakesOver()
    ensures forall i :: 2 <= i < 7 ==> Steps(WORLDS[i], ACTS[i], WORLDS[i + 1])
  {
    hide State, Steps;
    Claims(FREE0, map[], "w1", 0, 0);
    Recovers(LOCKED1, PCS1, 70_000, 60_000);
    Claims(Unlocked(LOCKED1, RowPending), PCS1, "w2", 1, 70_000);
    Throws(LOCKED2, PCS2, "w1", ERROR);
    FindsNoMarker(LOCKED2, PCS3, "w2");
  }

  /** The failure of the first worker releases the lease of the second. It was the first failure of the row,
    * which makes the row available again after 1000 * 2 ms; a third worker claims it once that time is
    * past, within the lease of the second. */
  lemma ReleasesAnothersLease()
    ensures forall i :: 7 <= i < 10 ==> Steps(WORLDS[i], ACTS[i], WORLDS[i + 1])
  {
    hide State, Steps;
    ReportsFailure(LOCKED2, PCS4, "w1", ERROR, 70_001, 5);
    Claims(Unlocked(LOCKED2, RowPending), PCS5, "w3", 2, 73_000);
    FindsNoMarker(LOCKED3, PCS6, "w3");
  }

  lemma BothCall()
    ensures forall i :: 10 <= i < 14 ==> Steps(WORLDS[i], ACTS[i], WORLDS[i + 1])
  {
    hide State, Steps;
    assert [] + ["a"] == ["a"] && ["a"] + ["a"] == ["a", "a"];
    LeavesMarker(None, LOCKED3, PCS7, [], "w2", 73_001);
    Calls(Some(73_001), LOCKED3, PCS8, [], "w2", "j2");
    LeavesMarker(Some(73_001), LOCKED3, PCS9, ["a"], "w3", 73_002);
    Calls(Some(73_002), LOCKED3, PCS10, ["a"], "w3", "j3");
  }

  lemma StepsMakeARun(ws: seq<World>, acts: seq<Action>)
    requires |ws| == |acts| + 1 && ws[0] == START
    requires forall i :: 0 <= i < |acts| ==> Steps(ws[i], acts[i], ws[i + 1])
    ensures IsWorldRun(ws, acts)
  {
    hide WellFormed, NextWorld;
    forall i | 0 <= i < |acts|
      ensures WellFormed(ws[i].db) && NextWorld(ws[i], acts[i], ws[i + 1])
    {
      assert Steps(ws[i], acts[i], ws[i + 1]);
    }
  }

  /** The worker whose lease was recovered commits no marker, and no other lease was recovered. */
  lemma OnlyOneLeaseRunsOut(i: nat)
    requires i < |ACTS|
    ensures ACTS[i].CommitMarker? ==> ACTS[i].worker != "w1"
    ensures ACTS[i].RecoverLeases? ==> i == 3 && WORLDS[i].db.outbox == map["a" := LOCKED1]
  {
    if ACTS[i].RecoverLeases? {
      assert WORLDS[3] == State(None, LOCKED1, PCS1, []);
    }
  }

  lemma EachSteps(i: nat)
    requires i < |ACTS|
    ensures Steps(WORLDS[i], ACTS[i], WORLDS[i + 1])
  {
    hide State, Steps;
    if i == 0 {
      Creates();
    } else if i == 1 {
      IsDispatched();
    } else if i < 7 {
      TakesOver();
    } else if i < 10 {
      ReleasesAnothersLease();
    } else {
      BothCall();
    }
  }

  /** It does not help that the worker whose lease was recovered never gets to the marker: its failure
    * still releases a lease that was never recovered. One attempt is called for twice. */
  lemma TwoCalls()
    ensures IsWorldRun(WORLDS, ACTS) && WORLDS[14].dialled == ["a", "a"]
    ensures forall i :: 0 <= i < |ACTS| && ACTS[i].CommitMarker? ==> ACTS[i].worker != "w1"
    ensures forall i :: 0 <= i < |ACTS| && ACTS[i].RecoverLeases? ==> WORLDS[i].db.outbox == map["a" := LOCKED1]
  {
    assert WORLDS[14].dialled == ["a", "a"];
    assert |WORLDS| == |ACTS| + 1 && WORLDS[0] == START;
    forall i | 0 <= i < |ACTS|
      ensures Steps(WORLDS[i], ACTS[i], WORLDS[i + 1])
    {
      EachSteps(i);
    }
    forall i | 0 <= i < |ACTS| {
      OnlyOneLeaseRunsOut(i);
    }
    StepsMakeARun(WORLDS, ACTS);
    hide *;
  }

  // ------------------------------------------------------------------- a failure that comes late

  const NO_RAW := Raw(None, None, None)
  const HANGUP := ProviderEvent("freeswitch", Some("e1"), "CHANNEL_HANGUP_COMPLETE", 5_000, None, None, None, NO_RAW)

  const CALLED := NewAttempt("t", 1, FreeSwitch, 0, 0).(dispatchStartedAt := Some(100))
  const HUNG_UP := CALLED.(status := Failed, endedAt := Some(5_000), lastEventAt := Some(5_000))
  const SECOND := NewAttempt("t", 2, FreeSwitch, 6_000, 6_000)

  const TASK_CALLING := NEW_TASK.(status := Calling, attemptCount := 1)
  const TASK_ENDED := TASK_CALLING.(status := Failed, endedAt := Some(5_000))
  const TASK_REDIALLED := TASK_ENDED.(status := Calling, attemptCount := 2)
  const TASK_FAILED := TASK_REDIALLED.(status := Failed, endedAt := Some(7_001))

  const EVENTS := map[EventKey("freeswitch", "e1") := "a"]
  const DB_ENDED := Db(map["t" := TASK_ENDED], map["a" := HUNG_UP], EVENTS, {"a"}, map["a" := LOCKED1])
  const DB_REDIALLED :=
    Db(map["t" := TASK_REDIALLED], map["a" := HUNG_UP, "b" := SECOND], EVENTS, {"a"}, map["a" := LOCKED1, "b" := FREE0])
  const DB_FAILED :=
    Db(map["t" := TASK_FAILED], map["a" := HUNG_UP, "b" := SECOND], EVENTS, {"a"},
       map["a" := Unlocked(LOCKED1, RowFailed), "b" := FREE0])

  /** What originate throws when the command was accepted but the reply has no job id. It is not retried. */
  const MISSING_JOB_UUID := "FreeSWITCH originate failed: MISSING_JOB_UUID"

  const REFUSED: map<WorkerId, Pc> := map["w1" := Busy("a", 0, Failing(true, MISSING_JOB_UUID))]

  const LATE_ACTS: seq<Action> := [
    Call(Create("t")),
    Call(Dispatch("t", Pending, "a", FreeSwitch, 0, 0)),
    Claim("w1", "a", 0, 0),
    ReadAttempt("w1"),
    CommitMarker("w1", 100),
    Originate("w1", Refused(true, MISSING_JOB_UUID)),
    Call(Event("a", HANGUP)),
    Call(Dispatch("t", Failed, "b", FreeSwitch, 6_000, 6_000)),
    CommitFailure("w1", 7_000, 7_001, 5)
  ]

  const LATE_WORLDS: seq<World> := [
    START,
    World(EMPTY.PutTask("t", NEW_TASK), map[], [], {}, {}),
    State(None, FREE0, map[], []),
    State(None, LOCKED1, PCS1, []),
    State(None, LOCKED1, map["w1" := Busy("a", 0, Guarded)], []),
    State(Some(100), LOCKED1, map["w1" := Busy("a", 0, Dialling)], []),
    State(Some(100), LOCKED1, REFUSED, ["a"]),
    World(DB_ENDED, REFUSED, ["a"], {}, {"a"}),
    World(DB_REDIALLED, REFUSED, ["a"], {}, {"a"}),
    World(DB_FAILED, map["w1" := Idle], ["a"], {}, {"a"})
  ]

  lemma IsRefused(marker: Option<Time>, row: OutboxRow, pcs: map<WorkerId, Pc>, worker: WorkerId, message: string)
    requires StageIn(pcs, worker, Dialling)
    ensures Steps(State(marker, row, pcs, []), Originate(worker, Refused(true, message)),
                  State(marker, row, pcs[worker := pcs[worker].(stage := Failing(true, message))], ["a"]))
  {
    Fine(marker, row, pcs, []);
    assert [] + ["a"] == ["a"];
    hide WellFormed, HasLeft;
  }

  /** The command is accepted, but the reply without a job id is an error to the worker. */
  lemma Dials()
    ensures forall i :: 2 <= i < 6 ==> Steps(LATE_WORLDS[i], LATE_ACTS[i], LATE_WORLDS[i + 1])
  {
    hide State, Steps;
    Claims(FREE0, map[], "w1", 0, 0);
    FindsNoMarker(LOCKED1, PCS1, "w1");
    assert PCS1["w1" := Busy("a", 0, Guarded)] == map["w1" := Busy("a", 0, Guarded)];
    LeavesMarker(None, LOCKED1, map["w1" := Busy("a", 0, Guarded)], [], "w1", 100);
    assert map["w1" := Busy("a", 0, Guarded)]["w1" := Busy("a", 0, Dialling)] == map["w1" := Busy("a", 0, Dialling)];
    IsRefused(Some(100), LOCKED1, map["w1" := Busy("a", 0, Dialling)], "w1", MISSING_JOB_UUID);
    assert map["w1" := Busy("a", 0, Dialling)]["w1" := Busy("a", 0, Failing(true, MISSING_JOB_UUID))] == REFUSED;
  }

  lemma NoCause()
    ensures NormalizeCause(None) == None && !IsFatal(None) && TerminalStatus(None, false) == Failed
  {
  }

  lemma HangupFails()
    ensures AttemptAfter(TASK_CALLING, CALLED, HANGUP) == HUNG_UP
    ensures TaskAfter(TASK_CALLING, CALLED, HANGUP) == TASK_ENDED
  {
    NoCause();
    hide NormalizeCause, IsFatal, TerminalStatus;
  }

  lemma HangupIsRecorded()
    ensures var db := State(Some(100), LOCKED1, REFUSED, ["a"]).db; RecordEvent(db, "a", HANGUP) == DB_ENDED
  {
    HangupFails();
    hide AttemptAfter, TaskAfter;
  }

  lemma EndedIsFine()
    ensures WellFormed(DB_ENDED) && HasLeft(DB_ENDED) == {"a"}
  {
  }

  lemma RedialledIsFine()
    ensures WellFormed(DB_REDIALLED)
  {
  }

  lemma OnlyTheFirstHasLeft()
    ensures HasLeft(DB_REDIALLED) == {"a"} && HasLeft(DB_FAILED) == {"a"}
  {
  }

  /** The call was placed all the same, and its end is reported. */
  lemma IsHungUp()
    ensures Steps(State(Some(100), LOCKED1, REFUSED, ["a"]), Call(Event("a", HANGUP)),
                  World(DB_ENDED, REFUSED, ["a"], {}, {"a"}))
  {
    Fine(Some(100), LOCKED1, REFUSED, ["a"]);
    HangupIsRecorded();
    EndedIsFine();
    hide RecordEvent, HasLeft, WellFormed;
  }

  lemma IsRedialled()
    ensures Dispatched(DB_ENDED, "t", "b", FreeSwitch, 6_000, 6_000) == DB_REDIALLED
  {
    assert Dispatched(DB_ENDED, "t", "b", FreeSwitch, 6_000, 6_000).attempts == DB_REDIALLED.attempts;
    assert Dispatched(DB_ENDED, "t", "b", FreeSwitch, 6_000, 6_000).outbox == DB_REDIALLED.outbox;
    assert Dispatched(DB_ENDED, "t", "b", FreeSwitch, 6_000, 6_000).tasks == DB_REDIALLED.tasks;
  }

  /** The task is dispatched again. */
  lemma Redialled()
    ensures Steps(World(DB_ENDED, REFUSED, ["a"], {}, {"a"}),
                  Call(Dispatch("t", Failed, "b", FreeSwitch, 6_000, 6_000)),
                  World(DB_REDIALLED, REFUSED, ["a"], {}, {"a"}))
  {
    IsRedialled();
    EndedIsFine();
    OnlyTheFirstHasLeft();
    hide HasLeft, WellFormed, Dispatched;
  }

  lemma CallIsFailed()
    ensures WellFormed(DB_REDIALLED)
    ensures DispatchFailed(DB_REDIALLED, "a", MISSING_JOB_UUID, 7_000, 7_001).(outbox := DB_FAILED.outbox) == DB_FAILED
  {
    RedialledIsFine();
    var db := DispatchFailed(DB_REDIALLED, "a", MISSING_JOB_UUID, 7_000, 7_001);
    assert db.attempts == DB_FAILED.attempts && db.tasks == DB_FAILED.tasks;
    hide WellFormed, HasLeft;
  }

  lemma FailureIsCommitted()
    ensures var w, act := World(DB_REDIALLED, REFUSED, ["a"], {}, {"a"}), CommitFailure("w1", 7_000, 7_001, 5);
      && Enabled(w, act) && RowsAfter(w, act) == DB_FAILED.outbox
      && DeliveryOf(w, act) == Fail("a", MISSING_JOB_UUID, 7_000, 7_001) && PcAfter(w, act) == Idle
  {
  }

  /** Only then does the worker commit the failure of the first attempt. */
  lemma FailsLate()
    ensures Steps(World(DB_REDIALLED, REFUSED, ["a"], {}, {"a"}), CommitFailure("w1", 7_000, 7_001, 5),
                  World(DB_FAILED, map["w1" := Idle], ["a"], {}, {"a"}))
  {
    var w, act := World(DB_REDIALLED, REFUSED, ["a"], {}, {"a"}), CommitFailure("w1", 7_000, 7_001, 5);
    FailureIsCommitted();
    CallIsFailed();
    OnlyTheFirstHasLeft();
    hide HasLeft, WellFormed, DispatchFailed, RowsAfter, DeliveryOf, Enabled, PcAfter, NextWorld;
    AfterIsNext(w, act);
    assert REFUSED["w1" := Idle] == map["w1" := Idle];
    assert After(w, act).db == DB_FAILED;
    assert {"a"} + {"a"} == {"a"};
    assert After(w, act) == World(DB_FAILED, map["w1" := Idle], ["a"], {}, {"a"});
  }

  lemma EachLateStep(i: nat)
    requires i < |LATE_ACTS|
    ensures Steps(LATE_WORLDS[i], LATE_ACTS[i], LATE_WORLDS[i + 1])
  {
    hide State, Steps;
    if i == 0 {
      Creates();
    } else if i == 1 {
      IsDispatched();
    } else if i < 6 {
      Dials();
    } else if i == 6 {
      IsHungUp();
    } else if i == 7 {
      Redialled();
    } else {
      FailsLate();
    }
  }

  /** The late failure, which is final at the first attempt of five, fails a task whose latest attempt is still
    * being dialled. */
  lemma LateFailureFailsTheTask()
    ensures IsWorldRun(LATE_WORLDS, LATE_ACTS)
    ensures var db := LATE_WORLDS[9].db;
      && db.tasks["t"].status == Failed && db.tasks["t"].attemptCount == 2
      && db.attempts["b"].attemptNo == 2 && db.attempts["b"].status == Calling
      && db.outbox["a"].status == RowFailed
  {
    assert |LATE_WORLDS| == |LATE_ACTS| + 1 && LATE_WORLDS[0] == START;
    forall i | 0 <= i < |LATE_ACTS|
      ensures Steps(LATE_WORLDS[i], LATE_ACTS[i], LATE_WORLDS[i + 1])
    {
      EachLateStep(i);
    }
    StepsMakeARun(LATE_WORLDS, LATE_ACTS);
    hide IsWorldRun, Steps, State;
  }
}
