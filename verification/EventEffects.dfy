/** What a recorded provider event writes, field by field, on the rows before and after. */
module EventEffects {
  import opened Options
  import opened Text
  import opened CallRows
  import opened ProviderEvents
  import opened CallDb
  import opened CallSteps
  import opened HangupCauses
  import CallStore

  // ------------------------------------------------------------------ how times are combined

  /** `d` is the number of whole seconds from `start` to `end`, and 0 if the end comes first. Without a start it
    * stays what it was. */
  predicate Lasts(start: Option<Time>, end: Time, before: Option<nat>, d: Option<nat>) {
    match start
    case None => d == before
    case Some(from) =>
      d.Some? && if end < from then d.value == 0 else d.value * 1000 <= end - from < d.value * 1000 + 1000
  }

  /** The earlier of two times, the first of which may be missing. */
  predicate IsEarlier(known: Option<Time>, at: Time, r: Option<Time>) {
    r.Some? && (r == known || r.value == at) && r.value <= at && (known.Some? ==> r.value <= known.value)
  }

  predicate IsLater(known: Option<Time>, at: Time, r: Option<Time>) {
    r.Some? && (r == known || r.value == at) && r.value >= at && (known.Some? ==> r.value >= known.value)
  }

  /** A time that is there already stays. */
  predicate Keeps(known: Option<Time>, at: Time, r: Option<Time>) {
    r == if known.Some? then known else Some(at)
  }

  /** Without a start there is no duration; otherwise it is the whole seconds that have passed. */
  lemma WholeSeconds(start: Option<Time>, end: Time)
    ensures start.None? ==> DurationSeconds(start, end).None?
    ensures start.Some? ==> DurationSeconds(start, end).Some?
    ensures start.Some? ==>
      var r := DurationSeconds(start, end).value;
      if end < start.value then r == 0 else r * 1000 <= end - start.value < r * 1000 + 1000
  {
  }

  lemma Duration(start: Option<Time>, end: Time, before: Option<nat>)
    ensures Lasts(start, end, before, DurationSeconds(start, end).Or(before))
  {
    WholeSeconds(start, end);
  }

  // --------------------------------------------------------------- which events are recorded

  /** The receiver knows the attempt and has not stored an event with this id from this provider. */
  predicate IsNew(db: Db, id: AttemptId, ev: ProviderEvent) {
    id in db.attempts && (ev.id.Some? ==> EventKey(ev.provider, ev.id.value) !in db.recorded)
  }

  /** An event is recorded exactly if its attempt is known and its id is new; it then writes this attempt, its
    * task and its own key, and nothing else. Otherwise nothing is written, and the answer says why. */
  lemma RecordedIffNew(db: Db, id: AttemptId, ev: ProviderEvent, db': Db)
    requires WellFormed(db) && Next(db, Event(id, ev), db')
    ensures !IsNew(db, id, ev) ==> db' == db
    ensures IsNew(db, id, ev) ==>
      && db'.recorded == (if ev.id.Some? then db.recorded[EventKey(ev.provider, ev.id.value) := id] else db.recorded)
      && db'.witnessed == db.witnessed + {id} && db'.outbox == db.outbox
      && db'.attempts.Keys == db.attempts.Keys && db'.tasks.Keys == db.tasks.Keys
      && (forall a :: a in db.attempts && a != id ==> db'.attempts[a] == db.attempts[a])
      && (forall t :: t in db.tasks && t != db.attempts[id].taskId ==> db'.tasks[t] == db.tasks[t])
    ensures RecordOutcome(db, id, ev) ==
      if id !in db.attempts then Err(NotFound)
      else if IsNew(db, id, ev) then Ok(Applied)
      else if db.recorded[EventKey(ev.provider, ev.id.value)] == id then Ok(Duplicate) else Err(Conflict)
  {
    hide AttemptAfter, TaskAfter, Distinct;
  }

  /** A new event of this kind, as a commit. */
  ghost predicate Arrives(db: Db, id: AttemptId, ev: ProviderEvent, db': Db)
  {
    WellFormed(db) && IsNew(db, id, ev) && Next(db, Event(id, ev), db')
  }

  lemma RowsAre(db: Db, id: AttemptId, ev: ProviderEvent, db': Db)
    requires Arrives(db, id, ev, db')
    ensures id in db.attempts && db.attempts[id].taskId in db.tasks
    ensures id in db'.attempts && db'.attempts[id] == AttemptAfter(db.TaskOf(id), db.attempts[id], ev)
    ensures db.attempts[id].taskId in db'.tasks
    ensures db'.tasks[db.attempts[id].taskId] == TaskAfter(db.TaskOf(id), db.attempts[id], ev)
  {
    hide AttemptAfter, TaskAfter, Distinct;
  }

  // -------------------------------------------------------------------- on every event

  /** Every new event, whatever its kind and the state of its attempt, is noted: the last event is the latest, a
    * missed snapshot that is no newer is taken back, progress sets the first ringing, and a recording is kept
    * for the attempt and, if it is the latest, for the task. The identity of both rows stays. */
  lemma EveryEventIsNoted(db: Db, id: AttemptId, ev: ProviderEvent, db': Db)
    requires Arrives(db, id, ev, db')
    ensures id in db.attempts && id in db'.attempts && db.attempts[id].taskId in db.tasks
    ensures db.attempts[id].taskId in db'.tasks
    ensures var a, a', t, t' :=
        db.attempts[id], db'.attempts[id], db.TaskOf(id), db'.tasks[db.attempts[id].taskId];
      && IsLater(a.lastEventAt, ev.at, a'.lastEventAt)
      && a'.missingCount ==
           (if a.lastSnapshotAt.None? || ev.at >= a.lastSnapshotAt.value then 0 else a.missingCount)
      && (if ev.eventType in {"CHANNEL_PROGRESS", "CHANNEL_PROGRESS_MEDIA"}
          then IsEarlier(a.ringingAt, ev.at, a'.ringingAt) else a'.ringingAt == a.ringingAt)
      && a' == a.(status := a'.status, answeredAt := a'.answeredAt, endedAt := a'.endedAt, duration := a'.duration,
                  hangupCause := a'.hangupCause, ringingAt := a'.ringingAt, lastEventAt := a'.lastEventAt,
                  missingCount := a'.missingCount, recordingUrl := a'.recordingUrl)
      && t' == t.(status := t'.status, calledAt := t'.calledAt, endedAt := t'.endedAt, duration := t'.duration,
                  recordingUrl := t'.recordingUrl)
      && var kept :=
           ev.eventType in {"RECORD_STOP", "RECORD_AVAILABLE", "RECORDING_AVAILABLE"} && ev.recordingUrl.Some?;
        && a'.recordingUrl == (if kept then ev.recordingUrl else a.recordingUrl)
        && t'.recordingUrl == (if kept && t.attemptCount == a.attemptNo then ev.recordingUrl else t.recordingUrl)
  {
    RowsAre(db, id, ev, db');
    Noting(db.TaskOf(id), db.attempts[id], ev);
    hide AttemptAfter, TaskAfter, Next, WellFormed, IsNew;
  }

  /** What no judgement of an event touches. */
  lemma JudgingKeeps(t: Task, a: Attempt, ev: ProviderEvent)
    ensures var noted, a' := Noted(a, ev), JudgedAttempt(t, a, ev);
      a' == noted.(status := a'.status, answeredAt := a'.answeredAt, endedAt := a'.endedAt, duration := a'.duration,
                   hangupCause := a'.hangupCause)
    ensures var t' := JudgedTask(t, a, ev);
      t' == t.(status := t'.status, calledAt := t'.calledAt, endedAt := t'.endedAt, duration := t'.duration)
  {
    hide DurationSeconds, FailsJob, HangupStatus, HangupCause, Backfilled, JobFailureCause, IsAnswer, IsHangup, Noted;
  }

  lemma Noting(t: Task, a: Attempt, ev: ProviderEvent)
    ensures var a', t' := AttemptAfter(t, a, ev), TaskAfter(t, a, ev);
      && IsLater(a.lastEventAt, ev.at, a'.lastEventAt)
      && a'.missingCount ==
           (if a.lastSnapshotAt.None? || ev.at >= a.lastSnapshotAt.value then 0 else a.missingCount)
      && (if ev.eventType in {"CHANNEL_PROGRESS", "CHANNEL_PROGRESS_MEDIA"}
          then IsEarlier(a.ringingAt, ev.at, a'.ringingAt) else a'.ringingAt == a.ringingAt)
      && a' == a.(status := a'.status, answeredAt := a'.answeredAt, endedAt := a'.endedAt, duration := a'.duration,
                  hangupCause := a'.hangupCause, ringingAt := a'.ringingAt, lastEventAt := a'.lastEventAt,
                  missingCount := a'.missingCount, recordingUrl := a'.recordingUrl)
      && t' == t.(status := t'.status, calledAt := t'.calledAt, endedAt := t'.endedAt, duration := t'.duration,
                  recordingUrl := t'.recordingUrl)
      && var kept :=
           ev.eventType in {"RECORD_STOP", "RECORD_AVAILABLE", "RECORDING_AVAILABLE"} && ev.recordingUrl.Some?;
        && a'.recordingUrl == (if kept then ev.recordingUrl else a.recordingUrl)
        && t'.recordingUrl == (if kept && t.attemptCount == a.attemptNo then ev.recordingUrl else t.recordingUrl)
  {
    JudgingKeeps(t, a, ev);
    hide JudgedAttempt, JudgedTask;
  }

  // -------------------------------------------------------------------- by the kind of event

  predicate Ended(s: Status) {
    s in {Completed, Failed, NoAnswer, Cancelled}
  }

  /** The task is the latest attempt's, and has not ended. */
  predicate Leads(t: Task, a: Attempt) {
    t.attemptCount == a.attemptNo && !Ended(t.status)
  }

  predicate JobFailed(ev: ProviderEvent) {
    ev.eventType == "BACKGROUND_JOB" && JobFailure(ev.backgroundJobResult).Some?
  }

  predicate SameTask(t: Task, t': Task) {
    t'.status == t.status && t'.calledAt == t.calledAt && t'.endedAt == t.endedAt && t'.duration == t.duration
  }

  /** Nothing is decided. */
  predicate Undecided(t: Task, a: Attempt, t': Task, a': Attempt) {
    && a'.status == a.status && a'.answeredAt == a.answeredAt && a'.endedAt == a.endedAt
    && a'.duration == a.duration && a'.hangupCause == a.hangupCause
    && SameTask(t, t')
  }

  /** An answer puts the attempt into the call, since the earliest answer that is known, and its task likewise if
    * it is the latest and the task has not ended. */
  predicate PutInCall(t: Task, a: Attempt, ev: ProviderEvent, t': Task, a': Attempt) {
    && a'.status == InCall && IsEarlier(a.answeredAt, ev.at, a'.answeredAt)
    && a'.endedAt == a.endedAt && a'.duration == a.duration && a'.hangupCause == a.hangupCause
    && (if Leads(t, a)
        then t'.status == InCall && IsEarlier(t.calledAt, ev.at, t'.calledAt)
             && t'.endedAt == t.endedAt && t'.duration == t.duration
        else SameTask(t, t'))
  }

  /** A failed background job fails it. */
  predicate FailedByJob(t: Task, a: Attempt, ev: ProviderEvent, t': Task, a': Attempt) {
    && a'.status == Failed && Keeps(a.endedAt, ev.at, a'.endedAt)
    && Lasts(a.answeredAt, ev.at, a.duration, a'.duration) && a'.answeredAt == a.answeredAt
    && a'.hangupCause == (if TechnicalFailure(ev.reportedCause) then ev.reportedCause
                          else JobFailure(ev.backgroundJobResult))
    && (if Leads(t, a)
        then t'.status == Failed && Keeps(t.endedAt, ev.at, t'.endedAt)
             && Lasts(t.calledAt, ev.at, t.duration, t'.duration) && t'.calledAt == t.calledAt
        else SameTask(t, t'))
  }

  /** The call was answered, as far as its rows say. */
  predicate KnownAnswered(t: Task, a: Attempt) {
    a.answeredAt.Some? || (t.attemptCount == a.attemptNo && t.calledAt.Some?)
  }

  /** The hangup itself says that the call was answered. */
  predicate SaysAnswered(raw: Raw) {
    || (raw.answerState.Some? && Lower(raw.answerState.value) == "answered")
    || (raw.billsec.Some? && raw.billsec.value > 0.0)
    || (raw.answerEpoch.Some? && raw.answerEpoch.value > 0.0)
  }

  /** The hangup carries this answer time: a positive whole number of seconds, neither before the start nor after
    * the end of the call, and not beyond what a date can hold. */
  ghost predicate CarriesAnswer(a: Attempt, ev: ProviderEvent, at: Time) {
    exists seconds :: CarriesSeconds(a, ev, at, seconds)
  }

  predicate CarriesSeconds(a: Attempt, ev: ProviderEvent, at: Time, seconds: int) {
    && seconds > 0 && ev.raw.answerEpoch == Some(seconds as real) && at == 1000 * seconds
    && a.startedAt <= at <= ev.at && at <= 8_640_000_000_000_000
  }

  /** The answer time after a hangup: that of the hangup, if the rows do not know of any answer. */
  ghost predicate FillsIn(t: Task, a: Attempt, ev: ProviderEvent, known: Option<Time>, r: Option<Time>) {
    if KnownAnswered(t, a) then r == known
    else (r.Some? && CarriesAnswer(a, ev, r.value)) || (r == known && forall at :: !CarriesAnswer(a, ev, at))
  }

  /** A hangup ends it: by the verdict on its cause, where a technical failure that is already known wins over the
    * reported cause; with a duration from its answer time; and the task with it, if it is the latest and the
    * task has not ended. */
  ghost predicate EndedByHangup(t: Task, a: Attempt, ev: ProviderEvent, t': Task, a': Attempt) {
    && Verdict(if TechnicalFailure(a.hangupCause) then a.hangupCause else ev.reportedCause,
               KnownAnswered(t, a) || SaysAnswered(ev.raw), a'.status)
    && Keeps(a.endedAt, ev.at, a'.endedAt)
    && FillsIn(t, a, ev, a.answeredAt, a'.answeredAt)
    && Lasts(a'.answeredAt, ev.at, a.duration, a'.duration)
    && a'.hangupCause == (if TechnicalFailure(a.hangupCause) then NormalizeCause(a.hangupCause)
                          else if ev.reportedCause.Some? then ev.reportedCause else a.hangupCause)
    && (if t.attemptCount == a.attemptNo then FillsIn(t, a, ev, t.calledAt, t'.calledAt)
        else t'.calledAt == t.calledAt)
    && (if Leads(t, a)
        then t'.status == a'.status && Keeps(t.endedAt, ev.at, t'.endedAt)
             && Lasts(t'.calledAt, ev.at, t.duration, t'.duration)
        else t'.status == t.status && t'.endedAt == t.endedAt && t'.duration == t.duration)
  }

  /** What a new event decides, by its kind. */
  ghost predicate Decided(t: Task, a: Attempt, ev: ProviderEvent, t': Task, a': Attempt) {
    if Ended(a.status) then Undecided(t, a, t', a')
    else if ev.eventType == "CHANNEL_ANSWER" then PutInCall(t, a, ev, t', a')
    else if ev.eventType == "CHANNEL_HANGUP_COMPLETE" then EndedByHangup(t, a, ev, t', a')
    else if JobFailed(ev) then FailedByJob(t, a, ev, t', a')
    else Undecided(t, a, t', a')
  }

  lemma OthersDecideNothing(t: Task, a: Attempt, ev: ProviderEvent)
    requires Ended(a.status)
      || (ev.eventType != "CHANNEL_ANSWER" && ev.eventType != "CHANNEL_HANGUP_COMPLETE" && !JobFailed(ev))
    ensures Undecided(t, a, TaskAfter(t, a, ev), AttemptAfter(t, a, ev))
  {
  }

  lemma AnswerPutsInCall(t: Task, a: Attempt, ev: ProviderEvent)
    requires !Ended(a.status) && ev.eventType == "CHANNEL_ANSWER"
    ensures PutInCall(t, a, ev, TaskAfter(t, a, ev), AttemptAfter(t, a, ev))
  {
  }

  lemma JobEndsCall(t: Task, a: Attempt, ev: ProviderEvent)
    requires !Ended(a.status) && JobFailed(ev)
    ensures FailedByJob(t, a, ev, TaskAfter(t, a, ev), AttemptAfter(t, a, ev))
  {
    OneVerdict(ev.reportedCause, false);
    Duration(a.answeredAt, ev.at, a.duration);
    Duration(t.calledAt, ev.at, t.duration);
    hide DurationSeconds, JobFailure, NormalizeCause, IsFatal, TechnicalFailure;
  }

  lemma HangupEndsCall(t: Task, a: Attempt, ev: ProviderEvent)
    requires !Ended(a.status) && ev.eventType == "CHANNEL_HANGUP_COMPLETE"
    ensures EndedByHangup(t, a, ev, TaskAfter(t, a, ev), AttemptAfter(t, a, ev))
  {
    HangupJudges(t, a, ev);
    BackfillsIff(t, a, ev);
    HangupEndsAttempt(t, a, ev);
    HangupEndsTask(t, a, ev);
    hide AttemptAfter, TaskAfter, NormalizeCause, TechnicalFailure, Verdict, Lasts, CarriesAnswer, Backfilled;
    hide HangupStatus, SaysAnswered;
  }

  lemma HangupEndsAttempt(t: Task, a: Attempt, ev: ProviderEvent)
    requires !Ended(a.status) && ev.eventType == "CHANNEL_HANGUP_COMPLETE"
    ensures var a' := AttemptAfter(t, a, ev);
      && a'.status == HangupStatus(t, a, ev)
      && Keeps(a.endedAt, ev.at, a'.endedAt)
      && a'.answeredAt == Backfilled(t, a, ev).Or(a.answeredAt)
      && Lasts(a'.answeredAt, ev.at, a.duration, a'.duration)
      && a'.hangupCause == (if TechnicalFailure(a.hangupCause) then NormalizeCause(a.hangupCause)
                            else if ev.reportedCause.Some? then ev.reportedCause else a.hangupCause)
  {
    Duration(Backfilled(t, a, ev).Or(a.answeredAt), ev.at, a.duration);
    OneVerdict(a.hangupCause, true);
    assert TechnicalFailure(a.hangupCause) ==> NormalizeCause(a.hangupCause).Some?;
    assert IsHangup(ev.eventType) && !IsAnswer(ev.eventType) && !FailsJob(ev) && !IsRecording(ev.eventType);
    hide DurationSeconds, JobFailure, NormalizeCause, IsFatal, TechnicalFailure, Lasts, Backfilled, HangupStatus, Noted;
    hide IsHangup, IsAnswer, FailsJob, IsRecording;
  }

  lemma HangupEndsTask(t: Task, a: Attempt, ev: ProviderEvent)
    requires !Ended(a.status) && ev.eventType == "CHANNEL_HANGUP_COMPLETE"
    ensures var t' := TaskAfter(t, a, ev);
      && t'.calledAt == (if t.attemptCount != a.attemptNo then t.calledAt
                         else if t.calledAt.Some? then t.calledAt else Backfilled(t, a, ev))
      && (if Leads(t, a)
          then t'.status == HangupStatus(t, a, ev) && Keeps(t.endedAt, ev.at, t'.endedAt)
               && Lasts(Backfilled(t, a, ev).Or(t.calledAt), ev.at, t.duration, t'.duration)
          else t'.status == t.status && t'.endedAt == t.endedAt && t'.duration == t.duration)
  {
    Duration(Backfilled(t, a, ev).Or(t.calledAt), ev.at, t.duration);
    assert IsHangup(ev.eventType) && !IsAnswer(ev.eventType) && !FailsJob(ev) && !IsRecording(ev.eventType);
    hide DurationSeconds, JobFailure, NormalizeCause, IsFatal, Lasts, Backfilled, HangupStatus;
    hide IsHangup, IsAnswer, FailsJob, IsRecording;
  }

  lemma HangupJudges(t: Task, a: Attempt, ev: ProviderEvent)
    ensures Verdict(if TechnicalFailure(a.hangupCause) then a.hangupCause else ev.reportedCause,
                    KnownAnswered(t, a) || SaysAnswered(ev.raw), HangupStatus(t, a, ev))
  {
    var answered := KnownAnswered(t, a) || SaysAnswered(ev.raw);
    OneVerdict(a.hangupCause, answered);
    OneVerdict(ev.reportedCause, answered);
    VerdictOfNormalForm(a.hangupCause, answered);
    hide TerminalStatus, TechnicalFailure, IsFatal, NormalizeCause, Verdict;
  }

  lemma BackfillsIff(t: Task, a: Attempt, ev: ProviderEvent)
    ensures Backfilled(t, a, ev).Some? ==> !KnownAnswered(t, a) && CarriesAnswer(a, ev, Backfilled(t, a, ev).value)
    ensures Backfilled(t, a, ev).None? ==> KnownAnswered(t, a) || forall at :: !CarriesAnswer(a, ev, at)
  {
    if Backfilled(t, a, ev).Some? {
      assert CarriesSeconds(a, ev, Backfilled(t, a, ev).value, ev.raw.answerEpoch.value.Floor);
    }
  }

  /** What a new event decides about its attempt and its task is fixed by its kind, its cause, its own evidence of
    * an answer and the two rows: an attempt that has ended stays as it is, and so do events of other kinds. */
  lemma EventDecides(db: Db, id: AttemptId, ev: ProviderEvent, db': Db)
    requires Arrives(db, id, ev, db')
    ensures id in db.attempts && id in db'.attempts && db.attempts[id].taskId in db.tasks
    ensures db.attempts[id].taskId in db'.tasks
    ensures Decided(db.TaskOf(id), db.attempts[id], ev, db'.tasks[db.attempts[id].taskId], db'.attempts[id])
  {
    RowsAre(db, id, ev, db');
    var t, a := db.TaskOf(id), db.attempts[id];
    hide AttemptAfter, TaskAfter, Arrives, Undecided, PutInCall, EndedByHangup, FailedByJob, JobFailure;
    if Ended(a.status) {
      OthersDecideNothing(t, a, ev);
    } else if ev.eventType == "CHANNEL_ANSWER" {
      AnswerPutsInCall(t, a, ev);
    } else if ev.eventType == "CHANNEL_HANGUP_COMPLETE" {
      HangupEndsCall(t, a, ev);
    } else if JobFailed(ev) {
      JobEndsCall(t, a, ev);
    } else {
      OthersDecideNothing(t, a, ev);
    }
  }

  /** So the hangup of an answered call leaves the whole seconds since the answer. */
  lemma HangupCountsSeconds(db: Db, id: AttemptId, ev: ProviderEvent, db': Db)
    requires Arrives(db, id, ev, db') && ev.eventType == "CHANNEL_HANGUP_COMPLETE"
    requires db.attempts[id].status in {Pending, Calling, InCall} && db.attempts[id].answeredAt.Some?
    requires ev.at >= db.attempts[id].answeredAt.value
    ensures id in db'.attempts && db'.attempts[id].duration.Some?
    ensures var d, since := db'.attempts[id].duration.value, db.attempts[id].answeredAt.value;
      d * 1000 <= ev.at - since < d * 1000 + 1000
  {
    EventDecides(db, id, ev, db');
    hide Arrives, Verdict, TechnicalFailure, SaysAnswered;
  }
}
