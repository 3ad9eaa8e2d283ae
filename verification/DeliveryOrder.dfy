/**
 * Provider events may arrive in any order. For the events of one call this module determines which
 * results do not depend on that order, and exactly when the final status is one of them.
 */
module DeliveryOrder {
  import opened Options
  import opened Permutations
  import opened CallRows
  import opened ProviderEvents

  datatype Call = Call(task: Task, attempt: Attempt)

  function Step(c: Call, ev: ProviderEvent): Call {
    Call(TaskAfter(c.task, c.attempt, ev), AttemptAfter(c.task, c.attempt, ev))
  }

  function Deliver(c: Call, events: seq<ProviderEvent>): Call
    decreases |events|
  {
    if events == [] then c else Deliver(Step(c, events[0]), events[1..])
  }

  /** A call on its latest attempt that is still open, with nothing to say how it will end. */
  predicate Open(c: Call) {
    && IsLatest(c.task, c.attempt)
    && !Terminal(c.task.status) && !Terminal(c.attempt.status)
    && (c.task.calledAt.Some? <==> c.attempt.answeredAt.Some?)
    && !IsFatal(c.attempt.hangupCause)
  }

  /** Neither a hangup nor a failed background job: the event does not end the call. */
  predicate Harmless(ev: ProviderEvent) {
    !IsHangup(ev.eventType) && !FailsJob(ev)
  }

  /** One hangup, at position `k`, among events that do not end the call. */
  predicate OneHangup(events: seq<ProviderEvent>, k: nat) {
    k < |events| && IsHangup(events[k].eventType) && forall i :: 0 <= i < |events| && i != k ==> Harmless(events[i])
  }

  /** The first event that ends the call is at position `k`. */
  predicate FirstEnding(events: seq<ProviderEvent>, k: nat) {
    k < |events| && !Harmless(events[k]) && forall i :: 0 <= i < k ==> Harmless(events[i])
  }

  /** The status an event ends an open call with, by whether an answer has been seen before it. */
  function StatusBy(ev: ProviderEvent, answered: bool): Status {
    if FailsJob(ev) then Failed else TerminalStatus(ev.reportedCause, answered || AnswerEvidence(ev.raw))
  }

  function CauseBy(c: Call, ev: ProviderEvent): Option<string> {
    if FailsJob(ev) then JobFailureCause(ev) else ev.reportedCause.Or(c.attempt.hangupCause)
  }

  predicate HasAnswer(events: seq<ProviderEvent>) {
    exists i :: 0 <= i < |events| && IsAnswer(events[i].eventType)
  }

  // ------------------------------------------------------------------- the status

  lemma OpenStaysOpen(c: Call, ev: ProviderEvent)
    requires Open(c) && Harmless(ev)
    ensures var c' := Step(c, ev);
      && Open(c')
      && c'.attempt.status == (if IsAnswer(ev.eventType) then InCall else c.attempt.status)
      && (c'.attempt.answeredAt.Some? <==> c.attempt.answeredAt.Some? || IsAnswer(ev.eventType))
      && c'.attempt.hangupCause == c.attempt.hangupCause && c'.attempt.endedAt == c.attempt.endedAt
      && c'.task.endedAt == c.task.endedAt && c'.attempt.startedAt == c.attempt.startedAt
  {
  }

  lemma {:induction false} HarmlessEventsKeepOpen(c: Call, events: seq<ProviderEvent>)
    requires Open(c) && forall i :: 0 <= i < |events| ==> Harmless(events[i])
    ensures var c' := Deliver(c, events);
      && Open(c')
      && c'.attempt.status == (if HasAnswer(events) then InCall else c.attempt.status)
      && (c'.attempt.answeredAt.Some? <==> c.attempt.answeredAt.Some? || HasAnswer(events))
      && c'.attempt.hangupCause == c.attempt.hangupCause && c'.attempt.endedAt == c.attempt.endedAt
      && c'.task.endedAt == c.task.endedAt
    decreases |events|
  {
    if events != [] {
      OpenStaysOpen(c, events[0]);
      HarmlessEventsKeepOpen(Step(c, events[0]), events[1..]);
      HasAnswerCons(events);
    }
  }

  lemma HasAnswerCons(events: seq<ProviderEvent>)
    requires events != []
    ensures HasAnswer(events) <==> IsAnswer(events[0].eventType) || HasAnswer(events[1..])
  {
    if HasAnswer(events) && !IsAnswer(events[0].eventType) {
      var i :| 0 <= i < |events| && IsAnswer(events[i].eventType);
      assert events[1..][i - 1] == events[i];
    }
    if HasAnswer(events[1..]) {
      var i :| 0 <= i < |events[1..]| && IsAnswer(events[1..][i].eventType);
      assert events[i + 1] == events[1..][i];
    }
  }

  /** The part of a call that events can no longer change once it has ended. */
  predicate SameEnding(c: Call, c': Call) {
    && c'.attempt.status == c.attempt.status && c'.attempt.endedAt == c.attempt.endedAt
    && c'.attempt.hangupCause == c.attempt.hangupCause && c'.attempt.answeredAt == c.attempt.answeredAt
    && c'.attempt.duration == c.attempt.duration
    && c'.task.status == c.task.status && c'.task.endedAt == c.task.endedAt
    && c'.task.calledAt == c.task.calledAt && c'.task.duration == c.task.duration
  }

  /** No event of any kind changes how an ended call ended. */
  lemma {:induction false} EndedStaysEnded(c: Call, events: seq<ProviderEvent>)
    requires Terminal(c.attempt.status)
    ensures SameEnding(c, Deliver(c, events))
    decreases |events|
  {
    if events != [] {
      EndedStaysEnded(Step(c, events[0]), events[1..]);
    }
  }

  lemma {:induction false} DeliverSplit(c: Call, a: seq<ProviderEvent>, b: seq<ProviderEvent>)
    ensures Deliver(c, a + b) == Deliver(Deliver(c, a), b)
    decreases |a|
  {
    if a == [] {
      assert a + b == b;
    } else {
      assert (a + b)[1..] == a[1..] + b;
      DeliverSplit(Step(c, a[0]), a[1..], b);
    }
  }

  lemma EndsBy(c: Call, ev: ProviderEvent)
    requires Open(c) && !Harmless(ev)
    ensures var c' := Step(c, ev);
      && c'.attempt.status == c'.task.status == StatusBy(ev, c.attempt.answeredAt.Some?)
      && Terminal(c'.attempt.status)
      && c'.attempt.endedAt == c.attempt.endedAt.Or(Some(ev.at)) && c'.task.endedAt == c.task.endedAt.Or(Some(ev.at))
      && c'.attempt.hangupCause == CauseBy(c, ev)
  {
  }

  /** How a call ends, as a function of the first event that ends it and of whether an answer was seen before
    * it. */
  lemma EndingOf(c: Call, events: seq<ProviderEvent>, k: nat)
    requires Open(c) && FirstEnding(events, k)
    ensures var c' := Deliver(c, events);
      && c'.attempt.status == c'.task.status ==
           StatusBy(events[k], c.attempt.answeredAt.Some? || HasAnswer(events[..k]))
      && c'.attempt.endedAt == c.attempt.endedAt.Or(Some(events[k].at))
      && c'.task.endedAt == c.task.endedAt.Or(Some(events[k].at))
      && c'.attempt.hangupCause == CauseBy(c, events[k])
  {
    var before, ending, after := events[..k], events[k], events[k + 1..];
    assert events == before + ([ending] + after);
    DeliverSplit(c, before, [ending] + after);
    HarmlessEventsKeepOpen(c, before);
    var atEnding := Deliver(c, before);
    assert ([ending] + after)[1..] == after;
    EndsBy(atEnding, ending);
    EndedStaysEnded(Step(atEnding, ending), after);
    hide Open, Harmless, StatusBy, Step, HasAnswer;
  }

  // ------------------------------------------------ results that are minimum and maximum

  /** `r` is the least of a known time and the times of the events that `counts` selects. */
  ghost predicate IsEarliestOf(known: Option<Time>, events: seq<ProviderEvent>, r: Option<Time>) {
    && (r.None? <==> known.None? && forall ev :: ev in events ==> !IsProgress(ev.eventType))
    && (r.Some? ==> r == known || exists ev :: ev in events && IsProgress(ev.eventType) && ev.at == r.value)
    && (r.Some? && known.Some? ==> r.value <= known.value)
    && (r.Some? ==> forall ev :: ev in events && IsProgress(ev.eventType) ==> r.value <= ev.at)
  }

  ghost predicate IsLatestOf(known: Option<Time>, events: seq<ProviderEvent>, r: Option<Time>) {
    && (r.None? <==> known.None? && events == [])
    && (r.Some? ==> r == known || exists ev :: ev in events && ev.at == r.value)
    && (r.Some? && known.Some? ==> r.value >= known.value)
    && (r.Some? ==> forall ev :: ev in events ==> r.value >= ev.at)
  }

  /** The first ringing is the earliest progress event, however late it arrives. */
  lemma {:induction false} RingingIsEarliest(c: Call, events: seq<ProviderEvent>)
    ensures IsEarliestOf(c.attempt.ringingAt, events, Deliver(c, events).attempt.ringingAt)
    decreases |events|
  {
    if events != [] {
      var next := Step(c, events[0]);
      assert next.attempt.ringingAt ==
        if IsProgress(events[0].eventType) then Earliest(c.attempt.ringingAt, events[0].at) else c.attempt.ringingAt;
      RingingIsEarliest(next, events[1..]);
      hide IsProgress, Step;
      assert events == [events[0]] + events[1..];
    }
  }

  lemma {:induction false} LastEventIsLatest(c: Call, events: seq<ProviderEvent>)
    ensures IsLatestOf(c.attempt.lastEventAt, events, Deliver(c, events).attempt.lastEventAt)
    decreases |events|
  {
    if events != [] {
      var next := Step(c, events[0]);
      assert next.attempt.lastEventAt == Latest(c.attempt.lastEventAt, events[0].at);
      LastEventIsLatest(next, events[1..]);
      hide Step;
      assert events == [events[0]] + events[1..];
    }
  }

  lemma EarliestIsUnique(known: Option<Time>, events: seq<ProviderEvent>, permuted: seq<ProviderEvent>,
                         r: Option<Time>, r': Option<Time>)
    requires forall ev :: ev in events <==> ev in permuted
    requires IsEarliestOf(known, events, r) && IsEarliestOf(known, permuted, r')
    ensures r == r'
  {
    hide IsProgress;
  }

  lemma LatestIsUnique(known: Option<Time>, events: seq<ProviderEvent>, permuted: seq<ProviderEvent>,
                       r: Option<Time>, r': Option<Time>)
    requires |events| == |permuted| && forall ev :: ev in events <==> ev in permuted
    requires IsLatestOf(known, events, r) && IsLatestOf(known, permuted, r')
    ensures r == r'
  {
  }

  /** The first ringing and the last event of a call do not depend on the order of delivery, for any
    * events and any call. */
  lemma TimesIgnoreOrder(c: Call, events: seq<ProviderEvent>, permuted: seq<ProviderEvent>)
    requires multiset(events) == multiset(permuted)
    ensures Deliver(c, events).attempt.ringingAt == Deliver(c, permuted).attempt.ringingAt
    ensures Deliver(c, events).attempt.lastEventAt == Deliver(c, permuted).attempt.lastEventAt
  {
    hide *;
    SameMembers(events, permuted);
    assert |multiset(events)| == |events| && |multiset(permuted)| == |permuted|;
    RingingIsEarliest(c, events);
    RingingIsEarliest(c, permuted);
    EarliestIsUnique(c.attempt.ringingAt, events, permuted,
                     Deliver(c, events).attempt.ringingAt, Deliver(c, permuted).attempt.ringingAt);
    LastEventIsLatest(c, events);
    LastEventIsLatest(c, permuted);
    LatestIsUnique(c.attempt.lastEventAt, events, permuted,
                   Deliver(c, events).attempt.lastEventAt, Deliver(c, permuted).attempt.lastEventAt);
  }

  // -------------------------------------------------------------- order independence

  /** What can be checked before anything is delivered: whichever event ends the call, before or after an
    * answer, ends it with the same status. */
  ghost predicate Unanimous(c: Call, events: seq<ProviderEvent>) {
    forall ev, ev' :: ev in events && !Harmless(ev) && ev' in events && !Harmless(ev') ==>
      StatusBy(ev, Answered(c)) == StatusBy(ev', Answered(c) || HasAnswer(events))
  }

  predicate Answered(c: Call) {
    c.attempt.answeredAt.Some?
  }

  lemma AnswerAmong(events: seq<ProviderEvent>)
    ensures HasAnswer(events) <==> exists ev :: ev in events && IsAnswer(ev.eventType)
  {
  }

  lemma SameAnswers(events: seq<ProviderEvent>, permuted: seq<ProviderEvent>)
    requires multiset(events) == multiset(permuted)
    ensures HasAnswer(events) <==> HasAnswer(permuted)
  {
    SameMembers(events, permuted);
    AnswerAmong(events);
    AnswerAmong(permuted);
    hide HasAnswer, IsAnswer;
  }

  lemma AnswerInPrefix(events: seq<ProviderEvent>, k: nat)
    requires k <= |events|
    ensures HasAnswer(events[..k]) ==> HasAnswer(events)
  {
    if HasAnswer(events[..k]) {
      var i :| 0 <= i < k && IsAnswer(events[..k][i].eventType);
      assert events[i] == events[..k][i];
    }
  }

  lemma {:induction false} FindEnding(events: seq<ProviderEvent>) returns (k: Option<nat>)
    ensures k.None? ==> forall i :: 0 <= i < |events| ==> Harmless(events[i])
    ensures k.Some? ==> FirstEnding(events, k.value)
  {
    hide Harmless;
    if events == [] {
      k := None;
    } else {
      var n := |events| - 1;
      var rest := events[..n];
      k := FindEnding(rest);
      if k.None? {
        assert forall i :: 0 <= i < n ==> events[i] == rest[i];
        k := if Harmless(events[n]) then None else Some(n);
      } else {
        assert forall i :: 0 <= i <= k.value ==> events[i] == rest[i];
      }
    }
  }

  /** The final status is that of some event that ends the call, before or after an answer. */
  lemma EndsByOneOf(c: Call, events: seq<ProviderEvent>, k: nat)
    requires Open(c) && FirstEnding(events, k)
    ensures events[k] in events && !Harmless(events[k])
    ensures Deliver(c, events).attempt.status in
      {StatusBy(events[k], Answered(c)), StatusBy(events[k], Answered(c) || HasAnswer(events))}
  {
    EndingOf(c, events, k);
    AnswerInPrefix(events, k);
    hide Open, Harmless, StatusBy, HasAnswer;
  }

  lemma UnanimousIsIndependent(c: Call, events: seq<ProviderEvent>, permuted: seq<ProviderEvent>)
    requires Open(c) && Unanimous(c, events) && multiset(events) == multiset(permuted)
    ensures Deliver(c, permuted).attempt.status == Deliver(c, events).attempt.status
  {
    SameMembers(events, permuted);
    SameAnswers(events, permuted);
    var k := FindEnding(events);
    var j := FindEnding(permuted);
    hide Open, Harmless, StatusBy, HasAnswer, Deliver;
    if k.Some? && j.Some? {
      EndsByOneOf(c, events, k.value);
      EndsByOneOf(c, permuted, j.value);
    } else {
      assert k.None? ==> forall ev :: ev in events ==> Harmless(ev);
      assert j.None? ==> forall ev :: ev in permuted ==> Harmless(ev);
      HarmlessEventsKeepOpen(c, events);
      HarmlessEventsKeepOpen(c, permuted);
    }
  }

  /** An order in which this event ends the call, before any answer. */
  lemma EndsFirst(c: Call, events: seq<ProviderEvent>, k: nat)
    requires Open(c) && k < |events| && !Harmless(events[k])
    ensures var permuted := [events[k]] + Without(events, k);
      && multiset(permuted) == multiset(events)
      && Deliver(c, permuted).attempt.status == StatusBy(events[k], Answered(c))
  {
    WithoutOne(events, k);
    hide Deliver, Harmless, StatusBy, Open, Without;
    var permuted := [events[k]] + Without(events, k);
    EndingOf(c, permuted, 0);
    assert permuted[..0] == [];
  }

  /** An order in which it ends the call right after an answer. */
  lemma EndsSecond(c: Call, events: seq<ProviderEvent>, i: nat, ev: ProviderEvent)
    returns (permuted: seq<ProviderEvent>)
    requires Open(c) && i < |events| && IsAnswer(events[i].eventType) && ev in events && !Harmless(ev)
    ensures multiset(permuted) == multiset(events)
    ensures Deliver(c, permuted).attempt.status == StatusBy(ev, true)
  {
    var answer := events[i];
    assert Harmless(answer);
    hide Deliver, Harmless, StatusBy, Open, IsAnswer;
    var rest := TwoFirst(events, i, ev);
    permuted := [answer, ev] + rest;
    EndingOf(c, permuted, 1);
    assert permuted[..1] == [answer];
    AnswerAmong([answer]);
    hide HasAnswer;
  }

  lemma DisagreementShows(c: Call, events: seq<ProviderEvent>) returns (a: seq<ProviderEvent>, b: seq<ProviderEvent>)
    requires Open(c) && !Unanimous(c, events)
    ensures multiset(a) == multiset(events) == multiset(b)
    ensures Deliver(c, a).attempt.status != Deliver(c, b).attempt.status
  {
    hide Deliver, Open, Harmless, StatusBy;
    var ev, ev' :| ev in events && !Harmless(ev) && ev' in events && !Harmless(ev')
      && StatusBy(ev, Answered(c)) != StatusBy(ev', Answered(c) || HasAnswer(events));
    var k :| 0 <= k < |events| && events[k] == ev;
    EndsFirst(c, events, k);
    a := [ev] + Without(events, k);
    if HasAnswer(events) {
      var i :| 0 <= i < |events| && IsAnswer(events[i].eventType);
      b := EndsSecond(c, events, i, ev');
    } else {
      var k' :| 0 <= k' < |events| && events[k'] == ev';
      EndsFirst(c, events, k');
      b := [ev'] + Without(events, k');
    }
  }

  /** For any events of an open call, with any number of hangups and failed background jobs among them: the
    * final status is independent of the order of delivery exactly if they are unanimous. */
  lemma OrderIndependentIff(c: Call, events: seq<ProviderEvent>)
    requires Open(c)
    ensures Unanimous(c, events) <==>
      forall permuted :: multiset(permuted) == multiset(events) ==>
        Deliver(c, permuted).attempt.status == Deliver(c, events).attempt.status
  {
    hide Deliver, Open, Unanimous;
    if Unanimous(c, events) {
      forall permuted | multiset(permuted) == multiset(events)
        ensures Deliver(c, permuted).attempt.status == Deliver(c, events).attempt.status
      {
        UnanimousIsIndependent(c, events, permuted);
      }
    } else {
      var a, b := DisagreementShows(c, events);
    }
  }

  // -------------------------------------------------- one hangup, and one failed job besides

  /** An answer that the one hangup does not itself vouch for, with a cause that is not fatal. */
  predicate OrderMatters(c: Call, events: seq<ProviderEvent>, k: nat)
    requires k < |events|
  {
    && HasAnswer(events)
    && !Answered(c)
    && !AnswerEvidence(events[k].raw)
    && !IsFatal(NormalizeCause(events[k].reportedCause))
  }

  /** With one hangup and no failed job, that is what makes the order matter. */
  lemma OneHangupIff(c: Call, events: seq<ProviderEvent>, k: nat)
    requires OneHangup(events, k)
    ensures Unanimous(c, events) <==> !OrderMatters(c, events, k)
  {
    assert forall ev :: ev in events && !Harmless(ev) ==> ev == events[k];
    assert events[k] in events;
    AnswerChangesStatus(c, events[k]);
    hide StatusBy, IsFatal, NormalizeCause, AnswerEvidence, HasAnswer;
  }

  lemma AnswerChangesStatus(c: Call, ev: ProviderEvent)
    requires IsHangup(ev.eventType)
    ensures StatusBy(ev, Answered(c)) != StatusBy(ev, true) <==>
      !Answered(c) && !AnswerEvidence(ev.raw) && !IsFatal(NormalizeCause(ev.reportedCause))
  {
    hide IsFatal, NormalizeCause, AnswerEvidence;
  }

  /** One hangup, at position `k`, and one failed background job, at position `m`, among harmless events. */
  predicate HangupAndFailedJob(events: seq<ProviderEvent>, k: nat, m: nat) {
    && k < |events| && m < |events| && IsHangup(events[k].eventType) && FailsJob(events[m])
    && forall i :: 0 <= i < |events| && i != k && i != m ==> Harmless(events[i])
  }

  /** With a failed job besides, the hangup has to fail the call, too, whether or not it comes after an
    * answer: its cause is fatal, or nothing tells of an answer and the cause does not stand for no answer. */
  lemma HangupAndFailedJobIff(c: Call, events: seq<ProviderEvent>, k: nat, m: nat)
    requires HangupAndFailedJob(events, k, m)
    ensures var cause := NormalizeCause(events[k].reportedCause);
      Unanimous(c, events) <==>
      || IsFatal(cause)
      || (!Answered(c) && !HasAnswer(events) && !AnswerEvidence(events[k].raw)
          && (cause.None? || cause.value !in NO_ANSWER_CAUSES))
  {
    assert events[k] in events && events[m] in events && !Harmless(events[k]) && !Harmless(events[m]);
    assert forall ev :: ev in events && !Harmless(ev) ==> ev == events[k] || ev == events[m];
    FailsEitherWay(events[k], Answered(c));
    FailsEitherWay(events[k], Answered(c) || HasAnswer(events));
    assert StatusBy(events[m], false) == StatusBy(events[m], true) == Failed;
    hide StatusBy, IsFatal, NormalizeCause, AnswerEvidence, HasAnswer, Harmless;
  }

  lemma FailsEitherWay(ev: ProviderEvent, answered: bool)
    requires IsHangup(ev.eventType)
    ensures var cause := NormalizeCause(ev.reportedCause);
      StatusBy(ev, answered) == Failed <==>
      IsFatal(cause) || (!answered && !AnswerEvidence(ev.raw) && (cause.None? || cause.value !in NO_ANSWER_CAUSES))
  {
    hide IsFatal, NormalizeCause, AnswerEvidence;
  }

  /** With one hangup, every order ends the call in the same statuses, at the same time and with the same
    * cause, as long as an answer is also vouched for by the hangup, or the cause is fatal anyway. */
  lemma EveryOrderEndsTheSame(c: Call, events: seq<ProviderEvent>, k: nat, permuted: seq<ProviderEvent>)
    requires Open(c) && OneHangup(events, k) && multiset(events) == multiset(permuted)
    requires !OrderMatters(c, events, k)
    ensures var one, other := Deliver(c, events), Deliver(c, permuted);
      && one.attempt.status == other.attempt.status && one.task.status == other.task.status
      && one.attempt.endedAt == other.attempt.endedAt && one.task.endedAt == other.task.endedAt
      && one.attempt.hangupCause == other.attempt.hangupCause
  {
    var j := HangupOfPermutation(events, k, permuted);
    OneHangupIff(c, events, k);
    UnanimousIsIndependent(c, events, permuted);
    assert !Harmless(events[k]) && FirstEnding(events, k) && FirstEnding(permuted, j);
    EndingOf(c, events, k);
    EndingOf(c, permuted, j);
    hide Deliver, Open, Harmless, StatusBy, HasAnswer, Unanimous, OrderMatters;
  }

  /** The position of the hangup among permuted events. */
  lemma HangupOfPermutation(events: seq<ProviderEvent>, k: nat, permuted: seq<ProviderEvent>) returns (j: nat)
    requires OneHangup(events, k) && multiset(events) == multiset(permuted)
    ensures OneHangup(permuted, j) && permuted[j] == events[k]
  {
    hide Harmless, IsHangup;
    j := PermutedPosition(events, k, permuted);
  }
}
