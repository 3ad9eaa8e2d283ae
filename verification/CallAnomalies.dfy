/** What goes wrong outside the conditions of the other theorems: exact conditions and concrete runs. */
module CallAnomalies {
  import opened Options
  import opened CallRows
  import opened ProviderEvents
  import opened CallDb
  import opened CallSteps
  import opened CallHistory
  import opened HangupCauses

  // ------------------------------------------------- an answer that belongs to an earlier attempt

  /** The attempt itself, or its hangup, shows that it was answered. */
  predicate OwnEvidence(a: Attempt, ev: ProviderEvent) {
    a.answeredAt.Some? || AnswerEvidence(ev.raw)
  }

  /** A hangup is judged by the evidence of its own attempt exactly if there is such evidence, or the
    * cause is fatal, or the task carries no answer time that would count as evidence for its latest
    * attempt. A dispatch does not clear the answer time an earlier attempt has left there. */
  lemma JudgedByOwnEvidenceIff(t: Task, a: Attempt, ev: ProviderEvent)
    ensures HangupStatus(t, a, ev) == TerminalStatus(HangupCause(a, ev), OwnEvidence(a, ev)) <==>
      OwnEvidence(a, ev) || IsFatal(NormalizeCause(HangupCause(a, ev))) || !(IsLatest(t, a) && t.calledAt.Some?)
  {
    hide NormalizeCause, AnswerEvidence, HangupCause;
  }

  /** The only attempt of a task is always judged by its own evidence. */
  lemma FirstAttemptJudgedByOwnEvidence(db: Db, a: AttemptId, ev: ProviderEvent)
    requires WellFormed(db) && Consistent(db) && a in db.attempts && db.TaskOf(a).attemptCount == 1
    ensures HangupStatus(db.TaskOf(a), db.attempts[a], ev) ==
            TerminalStatus(HangupCause(db.attempts[a], ev), OwnEvidence(db.attempts[a], ev))
  {
    InAgreement(db, a);
    JudgedByOwnEvidenceIff(db.TaskOf(a), db.attempts[a], ev);
    hide HangupStatus, HangupCause, OwnEvidence;
  }

  // ---------------------------------------------------------------------- concrete runs

  lemma MediaErrorIsFatal()
    ensures NormalizeCause(Some("MEDIA_ERROR")) == Some("MEDIA_ERROR") && IsFatal(Some("MEDIA_ERROR"))
    ensures !IsFatal(None) && NormalizeCause(None) == None
  {
    assert NormalizeCause(None) == None;
    NormalCause("MEDIA_ERROR");
    hide NormalizeCause;
  }

  const NO_RAW := Raw(None, None, None)
  const ANSWER := ProviderEvent("freeswitch", Some("e1"), "CHANNEL_ANSWER", 1000, None, None, None, NO_RAW)
  const LOST_MEDIA :=
    ProviderEvent("freeswitch", Some("e2"), "CHANNEL_HANGUP_COMPLETE", 2000, Some("MEDIA_ERROR"), None, None, NO_RAW)
  const UNANSWERED := ProviderEvent("freeswitch", Some("e3"), "CHANNEL_HANGUP_COMPLETE", 9000, None, None, None, NO_RAW)

  /** A first attempt that is answered and then loses its media, and a second one that is dialled. */
  const PREFIX: seq<Step> := [
    Create("t"),
    Dispatch("t", Pending, "a1", FreeSwitch, 0, 0),
    Event("a1", ANSWER),
    Event("a1", LOST_MEDIA),
    Dispatch("t", Failed, "a2", FreeSwitch, 3000, 3000)
  ]

  const FIRST := NewAttempt("t", 1, FreeSwitch, 0, 0)
  const ANSWERED := FIRST.(status := InCall, answeredAt := Some(1000), lastEventAt := Some(1000))
  const LOST := ANSWERED.(status := Failed, endedAt := Some(2000), duration := Some(1),
                          hangupCause := Some("MEDIA_ERROR"), lastEventAt := Some(2000))
  const ROW := OutboxRow(RowPending, 0, None, None)
  const KEY1 := EventKey("freeswitch", "e1")
  const KEY2 := EventKey("freeswitch", "e2")

  const DB1 := Db(map["t" := NEW_TASK], map[], map[], {}, map[])
  const DB2 := Db(map["t" := NEW_TASK.(status := Calling, attemptCount := 1)], map["a1" := FIRST], map[], {},
                  map["a1" := ROW])
  const DB3 := Db(map["t" := Task(InCall, 1, Some(1000), None, None, None)], map["a1" := ANSWERED],
                  map[KEY1 := "a1"], {"a1"}, map["a1" := ROW])
  const DB4 := Db(map["t" := Task(Failed, 1, Some(1000), Some(2000), Some(1), None)], map["a1" := LOST],
                  map[KEY1 := "a1", KEY2 := "a1"], {"a1"}, map["a1" := ROW])
  const DB5 := Db(map["t" := Task(Calling, 2, Some(1000), Some(2000), Some(1), None)],
                  map["a1" := LOST, "a2" := NewAttempt("t", 2, FreeSwitch, 3000, 3000)],
                  map[KEY1 := "a1", KEY2 := "a1"], {"a1"}, map["a1" := ROW, "a2" := ROW])

  lemma Starts()
    ensures WellFormed(EMPTY) && Next(EMPTY, PREFIX[0], DB1)
    ensures WellFormed(DB1) && Next(DB1, PREFIX[1], DB2)
  {
    hide NormalizeCause;
  }

  lemma Redials()
    ensures WellFormed(DB4) && Next(DB4, PREFIX[4], DB5)
  {
    hide NormalizeCause;
  }

  lemma RedialledIsFine()
    ensures WellFormed(DB5)
  {
  }

  lemma Answers()
    ensures WellFormed(DB2) && Next(DB2, PREFIX[2], DB3)
  {
    hide NormalizeCause;
  }

  lemma MediaErrorFails()
    ensures AttemptAfter(DB3.tasks["t"], ANSWERED, LOST_MEDIA) == LOST
    ensures TaskAfter(DB3.tasks["t"], ANSWERED, LOST_MEDIA) == DB4.tasks["t"]
  {
    MediaErrorIsFatal();
    hide NormalizeCause, IsFatal, AnswerTime, AnswerEvidence;
  }

  lemma LosesMedia()
    ensures WellFormed(DB3) && Next(DB3, PREFIX[3], DB4)
  {
    AnsweredIsFine();
    MediaErrorFails();
    hide AttemptAfter, TaskAfter, WellFormed;
    assert DB3.TaskOf("a1") == DB3.tasks["t"] && DB3.attempts["a1"] == ANSWERED;
    assert ApplyEvent(DB3, "a1", LOST_MEDIA) == DB4;
    assert RecordOutcome(DB3, "a1", LOST_MEDIA) == Ok(Applied);
  }

  lemma AnsweredIsFine()
    ensures WellFormed(DB3)
  {
  }

  const PREFIX_DBS := [EMPTY, DB1, DB2, DB3, DB4, DB5]

  lemma PrefixRuns()
    ensures IsRun(PREFIX_DBS, PREFIX) && WellFormed(DB5)
  {
    Starts();
    Answers();
    LosesMedia();
    Redials();
    RedialledIsFine();
    hide Next, WellFormed;
  }

  lemma Extended(dbs: seq<Db>, steps: seq<Step>, step: Step, db: Db)
    requires IsRun(dbs, steps) && WellFormed(dbs[|steps|]) && Next(dbs[|steps|], step, db)
    ensures IsRun(dbs + [db], steps + [step])
  {
    hide Next, WellFormed;
    var dbs', steps' := dbs + [db], steps + [step];
    forall i | 0 <= i < |steps'|
      ensures WellFormed(dbs'[i]) && Next(dbs'[i], steps'[i], dbs'[i + 1])
    {
      if i < |steps| {
        assert steps'[i] == steps[i];
        assert dbs'[i] == dbs[i] && dbs'[i + 1] == dbs[i + 1];
      }
    }
  }

  lemma OneMore(step: Step, db: Db)
    requires WellFormed(DB5) && Next(DB5, step, db)
    ensures IsRun(PREFIX_DBS + [db], PREFIX + [step])
  {
    PrefixRuns();
    hide IsRun, Next, WellFormed;
    assert PREFIX_DBS[|PREFIX|] == DB5;
    Extended(PREFIX_DBS, PREFIX, step, db);
  }

  lemma UnansweredIsJudgedAnswered()
    ensures AttemptAfter(DB5.tasks["t"], DB5.attempts["a2"], UNANSWERED).status == Completed
    ensures AttemptAfter(DB5.tasks["t"], DB5.attempts["a2"], UNANSWERED).answeredAt.None?
    ensures TaskAfter(DB5.tasks["t"], DB5.attempts["a2"], UNANSWERED).status == Completed
  {
    MediaErrorIsFatal();
    hide NormalizeCause, IsFatal, DurationSeconds, AnswerTime;
  }

  /** The second attempt is hung up without any sign of an answer, and yet both it and its task are
    * completed. */
  lemma UnansweredRetryIsCompleted() returns (db: Db)
    ensures IsRun(PREFIX_DBS + [db], PREFIX + [Event("a2", UNANSWERED)])
    ensures "a2" in db.attempts && db.attempts["a2"].answeredAt.None? && db.attempts["a2"].status == Completed
    ensures "t" in db.tasks && db.tasks["t"].status == Completed
  {
    PrefixRuns();
    UnansweredIsJudgedAnswered();
    hide AttemptAfter, TaskAfter, WellFormed;
    assert RecordOutcome(DB5, "a2", UNANSWERED) == Ok(Applied);
    db := ApplyEvent(DB5, "a2", UNANSWERED);
    OneMore(Event("a2", UNANSWERED), db);
    hide IsRun;
  }

  /** A status update that names the first attempt makes it active again, although it has ended. */
  lemma UpdateRevivesAnEndedAttempt() returns (db: Db)
    ensures IsRun(PREFIX_DBS + [db],
                  PREFIX + [Update("t", Some(("a1", LOST)), StatusRead(Calling, Some(1000)), InCall, 4000)])
    ensures "a1" in DB5.attempts && DB5.attempts["a1"].status == Failed
    ensures "a1" in db.attempts && db.attempts["a1"].status == InCall
  {
    PrefixRuns();
    db := StatusUpdated(DB5, "t", Some(("a1", LOST)), StatusRead(Calling, Some(1000)), InCall, 4000);
    OneMore(Update("t", Some(("a1", LOST)), StatusRead(Calling, Some(1000)), InCall, 4000), db);
    hide IsRun, WellFormed;
  }
}
