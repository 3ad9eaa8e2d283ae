/** The rows of outbound tasks and call attempts, and the pure rules about them. */
module CallRows {
  import opened Options
  import opened Text

  type TaskId = string
  type AttemptId = string

  /** Milliseconds since the epoch. */
  type Time = int

  datatype Status = Pending | Calling | InCall | Completed | Failed | NoAnswer | Cancelled

  datatype Channel = FreeSwitch | Web

  predicate Terminal(s: Status) {
    s in {Completed, Failed, NoAnswer, Cancelled}
  }

  predicate Active(s: Status) {
    s == Calling || s == InCall
  }

  /** The transitions that status updates may ask for. */
  predicate Allowed(from: Status, to: Status) {
    match from
    case Pending => to in {Calling, Cancelled, Failed}
    case Calling => to in {InCall, NoAnswer, Failed, Cancelled}
    case InCall => to in {Completed, Failed, Cancelled}
    case Failed => to == Calling
    case NoAnswer => to == Calling
    case Completed => false
    case Cancelled => false
  }

  datatype Task = Task(
    status: Status,
    attemptCount: nat,
    calledAt: Option<Time>,
    endedAt: Option<Time>,
    duration: Option<nat>,
    recordingUrl: Option<string>)

  datatype Attempt = Attempt(
    taskId: TaskId,
    attemptNo: nat,
    channel: Channel,
    providerJobId: Option<string>,
    dispatchStartedAt: Option<Time>,
    status: Status,
    startedAt: Time,
    ringingAt: Option<Time>,
    answeredAt: Option<Time>,
    endedAt: Option<Time>,
    duration: Option<nat>,
    hangupCause: Option<string>,
    recordingUrl: Option<string>,
    lastEventAt: Option<Time>,
    lastSnapshotId: Option<string>,
    lastSnapshotAt: Option<Time>,
    missingCount: nat)

  const NEW_TASK := Task(Pending, 0, None, None, None, None)

  /** `now` is read by the service, and `startedAt` by the database. */
  function NewAttempt(taskId: TaskId, attemptNo: nat, channel: Channel, now: Time, startedAt: Time): Attempt {
    Attempt(taskId, attemptNo, channel, None, None, Calling, startedAt, if channel.Web? then Some(now) else None,
            None, None, None, None, None, None, None, None, 0)
  }

  /** Whole seconds from an optional start, never negative. */
  function DurationSeconds(start: Option<Time>, end: Time): Option<nat> {
    match start
    case None => None
    case Some(from) => if end < from then Some(0) else Some((end - from) / 1000)
  }

  // -------------------------------------------------------------- hangup causes

  const NO_ANSWER_CAUSES: set<string> := {
    "CALL_REJECTED", "NO_ANSWER", "NORMAL_CLEARING", "ORIGINATOR_CANCEL", "SUBSCRIBER_ABSENT", "USER_BUSY",
    "NO_USER_RESPONSE"
  }

  const FAILED_CAUSES: set<string> := {
    "DESTINATION_OUT_OF_ORDER", "NETWORK_OUT_OF_ORDER", "NORMAL_TEMPORARY_FAILURE", "RECOVERY_ON_TIMER_EXPIRE",
    "REQUESTED_CHAN_UNAVAIL", "SWITCH_CONGESTION", "INVALID_NUMBER_FORMAT", "NO_ROUTE_DESTINATION",
    "UNALLOCATED_NUMBER", "USER_NOT_REGISTERED", "NO_ROUTE", "BEARERCAPABILITY_NOTAVAIL",
    "INCOMPATIBLE_DESTINATION", "PROTOCOL_ERROR", "MEDIA_ERROR", "MEDIA_TIMEOUT", "AUDIO_FORK_ERROR",
    "BACKGROUND_JOB_FAILED", "EVENT_LOSS_RECONCILED"
  }

  const EVENT_LOSS_RECONCILED := "EVENT_LOSS_RECONCILED"
  const STALE_CALL_REAPED := "STALE_CALL_REAPED"

  predicate IsSeparator(c: char) {
    IsSpace(c) || c == '.' || c == '-'
  }

  /** Every run of separators becomes one underscore. */
  function Underscored(s: string): string {
    if s == [] then []
    else if !IsSeparator(s[0]) then [s[0]] + Underscored(s[1..])
    else if |s| > 1 && IsSeparator(s[1]) then Underscored(s[1..])
    else "_" + Underscored(s[1..])
  }

  function CleanString(s: Option<string>): Option<string> {
    if s.Some? && Trim(s.value) != [] then Some(Trim(s.value)) else None
  }

  function NormalizeCause(s: Option<string>): Option<string> {
    match CleanString(s)
    case None => None
    case Some(text) => Some(Upper(Underscored(text)))
  }

  predicate IsFatal(cause: Option<string>) {
    var normalized := NormalizeCause(cause);
    normalized.Some? && normalized.value in FAILED_CAUSES
  }

  /** The terminal status of a call: a fatal cause wins over evidence of an answer, which wins over a
    * cause that stands for no answer; anything else has failed. */
  function TerminalStatus(cause: Option<string>, answered: bool): (s: Status)
    ensures Terminal(s) && s != Cancelled
  {
    var normalized := NormalizeCause(cause);
    if IsFatal(normalized) then Failed
    else if answered then Completed
    else if normalized.Some? && normalized.value in NO_ANSWER_CAUSES then NoAnswer
    else Failed
  }

  /** The status a call is closed with when its hangup was never seen. */
  function ClosingStatus(existingCause: Option<string>, answered: bool): (s: Status)
    ensures Terminal(s) && s != Cancelled
  {
    if existingCause.Some? then TerminalStatus(existingCause, answered)
    else if answered then Completed else Failed
  }

  function CloseAttempt(a: Attempt, status: Status, at: Time, cause: string): Attempt {
    a.(status := status,
       endedAt := a.endedAt.Or(Some(at)),
       duration := DurationSeconds(a.answeredAt, at).Or(a.duration),
       hangupCause := Some(cause))
  }

  function CloseTask(t: Task, status: Status, at: Time): Task {
    t.(status := status,
       endedAt := t.endedAt.Or(Some(at)),
       duration := DurationSeconds(t.calledAt, at).Or(t.duration))
  }
}
