/** What one provider event does to an attempt and its task. */
module ProviderEvents {
  import opened Options
  import opened Text
  import opened CallRows

  /** The headers of the raw event that say whether the call was answered. */
  datatype Raw = Raw(answerState: Option<string>, billsec: Option<real>, answerEpoch: Option<real>)

  datatype ProviderEvent = ProviderEvent(
    provider: string,
    id: Option<string>,
    eventType: string,
    at: Time,
    reportedCause: Option<string>,
    backgroundJobResult: Option<string>,
    recordingUrl: Option<string>,
    raw: Raw)

  predicate IsProgress(eventType: string) {
    eventType == "CHANNEL_PROGRESS" || eventType == "CHANNEL_PROGRESS_MEDIA"
  }

  predicate IsAnswer(eventType: string) {
    eventType == "CHANNEL_ANSWER"
  }

  predicate IsHangup(eventType: string) {
    eventType == "CHANNEL_HANGUP_COMPLETE"
  }

  predicate IsRecording(eventType: string) {
    eventType == "RECORD_STOP" || eventType == "RECORD_AVAILABLE" || eventType == "RECORDING_AVAILABLE"
  }

  predicate IsBackgroundJob(eventType: string) {
    eventType == "BACKGROUND_JOB"
  }

  predicate AnswerEvidence(raw: Raw) {
    || (raw.answerState.Some? && Lower(raw.answerState.value) == "answered")
    || (raw.billsec.Some? && raw.billsec.value > 0.0)
    || (raw.answerEpoch.Some? && raw.answerEpoch.value > 0.0)
  }

  const MAX_DATE: Time := 8_640_000_000_000_000

  /** The answer time a hangup event carries, if it is a whole number of seconds within the call. */
  function AnswerTime(raw: Raw, startedAt: Time, endedAt: Time): (r: Option<Time>)
    ensures r.Some? ==> startedAt <= r.value <= endedAt && AnswerEvidence(raw)
  {
    if raw.answerEpoch.None? then None else
    var epoch := raw.answerEpoch.value;
    if epoch.Floor as real != epoch || epoch <= 0.0 then None else
    var at := epoch.Floor * 1000;
    if at > MAX_DATE || at < startedAt || at > endedAt then None else Some(at)
  }

  /** The cause of a failed background job, for a result that starts with `-ERR`. */
  function JobFailure(result: Option<string>): Option<string> {
    match CleanString(result)
    case None => None
    case Some(text) =>
      if |text| < 4 || Upper(text[..4]) != "-ERR" || (|text| > 4 && !IsSpace(text[4])) then None else
      var candidate := NormalizeCause(Some(text[4..]));
      if candidate.Some? && candidate.value != "UNKNOWN" then candidate else Some("BACKGROUND_JOB_FAILED")
  }

  predicate FailsJob(ev: ProviderEvent) {
    IsBackgroundJob(ev.eventType) && JobFailure(ev.backgroundJobResult).Some?
  }

  predicate IsLatest(t: Task, a: Attempt) {
    t.attemptCount == a.attemptNo
  }

  /** The later of two times and the earlier of two times, the first of which may be missing. */
  function Latest(known: Option<Time>, at: Time): Option<Time> {
    if known.None? || at > known.value then Some(at) else known
  }

  function Earliest(known: Option<Time>, at: Time): Option<Time> {
    if known.None? || at < known.value then Some(at) else known
  }

  /** What every event leaves on its attempt, whatever state the attempt is in. */
  function Noted(a: Attempt, ev: ProviderEvent): Attempt {
    a.(lastEventAt := Latest(a.lastEventAt, ev.at),
       missingCount := if a.missingCount > 0 && (a.lastSnapshotAt.None? || ev.at >= a.lastSnapshotAt.value) then 0
                       else a.missingCount,
       ringingAt := if IsProgress(ev.eventType) then Earliest(a.ringingAt, ev.at) else a.ringingAt)
  }

  predicate HasDirectEvidence(t: Task, a: Attempt) {
    a.answeredAt.Some? || (IsLatest(t, a) && t.calledAt.Some?)
  }

  /** The cause a hangup is judged by. */
  function HangupCause(a: Attempt, ev: ProviderEvent): Option<string> {
    if IsFatal(a.hangupCause) then NormalizeCause(a.hangupCause) else ev.reportedCause
  }

  function HangupStatus(t: Task, a: Attempt, ev: ProviderEvent): Status {
    TerminalStatus(HangupCause(a, ev), HasDirectEvidence(t, a) || AnswerEvidence(ev.raw))
  }

  /** The answer time that is filled in from the hangup when no answer was recorded. */
  function Backfilled(t: Task, a: Attempt, ev: ProviderEvent): Option<Time> {
    if HasDirectEvidence(t, a) then None else AnswerTime(ev.raw, a.startedAt, ev.at)
  }

  function JobFailureCause(ev: ProviderEvent): Option<string> {
    if IsFatal(ev.reportedCause) then ev.reportedCause else JobFailure(ev.backgroundJobResult)
  }

  function JudgedAttempt(t: Task, a: Attempt, ev: ProviderEvent): Attempt {
    var noted := Noted(a, ev);
    if Terminal(a.status) then noted
    else if IsAnswer(ev.eventType) then noted.(status := InCall, answeredAt := Earliest(a.answeredAt, ev.at))
    else if FailsJob(ev) then
      noted.(status := Failed,
             endedAt := a.endedAt.Or(Some(ev.at)),
             duration := DurationSeconds(a.answeredAt, ev.at).Or(a.duration),
             hangupCause := JobFailureCause(ev))
    else if IsHangup(ev.eventType) then
      var answeredAt := Backfilled(t, a, ev).Or(a.answeredAt);
      noted.(status := HangupStatus(t, a, ev),
             answeredAt := answeredAt,
             endedAt := a.endedAt.Or(Some(ev.at)),
             duration := DurationSeconds(answeredAt, ev.at).Or(a.duration),
             hangupCause := HangupCause(a, ev).Or(a.hangupCause))
    else noted
  }

  function JudgedTask(t: Task, a: Attempt, ev: ProviderEvent): Task {
    if !IsLatest(t, a) || Terminal(a.status) then t
    else if IsAnswer(ev.eventType) then
      if Terminal(t.status) then t else t.(status := InCall, calledAt := Earliest(t.calledAt, ev.at))
    else if FailsJob(ev) then
      if Terminal(t.status) then t else CloseTask(t, Failed, ev.at)
    else if IsHangup(ev.eventType) then
      var backfilled := Backfilled(t, a, ev);
      var called := t.(calledAt := t.calledAt.Or(backfilled));
      if Terminal(t.status) then called else
      called.(status := HangupStatus(t, a, ev),
              endedAt := t.endedAt.Or(Some(ev.at)),
              duration := DurationSeconds(backfilled.Or(t.calledAt), ev.at).Or(t.duration))
    else t
  }

  function AttemptAfter(t: Task, a: Attempt, ev: ProviderEvent): Attempt {
    var a' := JudgedAttempt(t, a, ev);
    if IsRecording(ev.eventType) && ev.recordingUrl.Some? then a'.(recordingUrl := ev.recordingUrl) else a'
  }

  function TaskAfter(t: Task, a: Attempt, ev: ProviderEvent): Task {
    var t' := JudgedTask(t, a, ev);
    if IsRecording(ev.eventType) && ev.recordingUrl.Some? && IsLatest(t, a) then t'.(recordingUrl := ev.recordingUrl)
    else t'
  }
}
