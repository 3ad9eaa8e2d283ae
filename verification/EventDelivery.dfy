/** The delivery queue together with the receiver that records each event once, among all its other writers. */
module EventDelivery {
  import opened Options
  import opened CallRows
  import opened ProviderEvents
  import opened CallDb
  import opened EventQueue
  import CallStore
  import CallSteps
  import CallHistory

  /** One commit at the receiver. `from` is the position of the accepted post it applies, if it is ours. */
  datatype Commit = Commit(step: CallSteps.Step, from: Option<nat>)

  datatype Settlement = Acknowledged | DeadLettered

  /** `answer` is what the receiver has made of the post in flight, if it has arrived. The rest is history:
    * every accepted post, how each of the first ones was settled, and the states of the receiver with the
    * commits between them. */
  datatype System = System(
    queue: Queue,
    answer: Option<Result<Recording, RecordError>>,
    accepted: seq<Post>,
    settled: seq<Settlement>,
    dbs: seq<Db>,
    commits: seq<Commit>)
  {
    function Receiver(): Db
      requires dbs != []
    {
      dbs[|dbs| - 1]
    }
  }

  datatype Action =
    | Offer(post: Post)
    | Arrive                                      // the post in flight takes effect at the receiver
    | Succeed
    | Fail(retryable: bool)                       // whether or not the post has arrived
    | Continue                                    // a dead letter has been written, or a backoff has passed
    | Stop
    | Elsewhere(step: CallSteps.Step, db': Db)    // any other writer commits at the receiver

  datatype Limits = Limits(maxSize: nat, maxAttempts: nat)

  predicate Identified(post: Post) {
    post.ev.id.Some?
  }

  /** The parser of events gives every event an id. A post succeeds only after it has arrived and been
    * accepted by the receiver, and arrives at most once, before its outcome is seen. */
  ghost predicate Enabled(s: System, act: Action)
    requires s.dbs != []
  {
    match act
    case Offer(post) => Identified(post)
    case Arrive => s.queue.phase == Posting && s.queue.items != [] && s.answer.None?
    case Succeed => s.queue.phase == Posting && s.queue.items != [] && s.answer.Some? && s.answer.value.Ok?
    case Fail(_) => s.queue.phase == Posting && s.queue.items != []
    case Continue => s.queue.phase == WritingDeadLetter || s.queue.phase == BackingOff
    case Stop => true
    case Elsewhere(step, db') => WellFormed(s.Receiver()) && CallSteps.Next(s.Receiver(), step, db')
  }

  function Committed(s: System, step: CallSteps.Step, from: Option<nat>, db': Db): System {
    s.(dbs := s.dbs + [db'], commits := s.commits + [Commit(step, from)])
  }

  ghost function Next(s: System, act: Action, limits: Limits): System
    requires s.dbs != [] && Enabled(s, act)
  {
    match act
    case Offer(post) =>
      s.(queue := Enqueued(s.queue, post, limits.maxSize),
         accepted := if Accepts(s.queue, limits.maxSize) then s.accepted + [post] else s.accepted)
    case Arrive =>
      var head := s.queue.items[0].post;
      var outcome := RecordOutcome(s.Receiver(), head.attempt, head.ev);
      var answered := s.(answer := Some(outcome));
      if outcome != Ok(Applied) then answered else
      Committed(answered, CallSteps.Event(head.attempt, head.ev), Some(|s.settled|),
                RecordEvent(s.Receiver(), head.attempt, head.ev))
    case Succeed =>
      s.(queue := AfterSuccess(s.queue), answer := None, settled := s.settled + [Acknowledged])
    case Fail(retryable) =>
      s.(queue := AfterFailure(s.queue, retryable, limits.maxAttempts), answer := None,
         settled := if GivesUp(s.queue.items[0], retryable, limits.maxAttempts) then s.settled + [DeadLettered]
                    else s.settled)
    case Continue => s.(queue := Continued(s.queue))
    case Stop => s.(queue := s.queue.(stopped := true))
    case Elsewhere(step, db') => Committed(s, step, None, db')
  }

  function Start(db: Db): System {
    System(FRESH, None, [], [], [db], [])
  }

  ghost predicate IsRun(states: seq<System>, acts: seq<Action>, db: Db, limits: Limits) {
    && |states| == |acts| + 1 && states[0] == Start(db) && WellFormed(db)
    && forall i :: 0 <= i < |acts| ==>
         states[i].dbs != [] && Enabled(states[i], acts[i]) && states[i + 1] == Next(states[i], acts[i], limits)
  }

  // ------------------------------------------------------------------ what the run keeps

  function KeyOf(post: Post): EventKey
    requires Identified(post)
  {
    EventKey(post.ev.provider, post.ev.id.value)
  }

  function Posts(items: seq<Item>): seq<Post> {
    seq(|items|, i requires 0 <= i < |items| => items[i].post)
  }

  /** The event of this post is recorded for its attempt. */
  predicate Recorded(db: Db, post: Post) {
    Identified(post) && KeyOf(post) in db.recorded && db.recorded[KeyOf(post)] == post.attempt
  }

  function CountDead(settled: seq<Settlement>): nat {
    if settled == [] then 0
    else CountDead(settled[..|settled| - 1]) + (if settled[|settled| - 1].DeadLettered? then 1 else 0)
  }

  /** The posts are settled from the front, and the rest is still queued, in order. */
  ghost predicate Conserves(s: System, limits: Limits) {
    && s.dbs != []
    && Sound(s.queue, limits.maxSize, limits.maxAttempts)
    && |s.settled| <= |s.accepted|
    && Posts(s.queue.items) == s.accepted[|s.settled|..]
    && CountDead(s.settled) == s.queue.deadLetters
  }

  /** Commit `k` turns one state of the receiver into the next. */
  ghost predicate CommitsAt(s: System, k: nat)
    requires k < |s.commits| && |s.dbs| == |s.commits| + 1
  {
    WellFormed(s.dbs[k]) && CallSteps.Next(s.dbs[k], s.commits[k].step, s.dbs[k + 1])
  }

  /** Commit `k` applies the accepted post it comes from, if it comes from one. */
  ghost predicate AppliesPost(s: System, k: nat)
    requires k < |s.commits| && |s.dbs| == |s.commits| + 1
  {
    s.commits[k].from.Some? ==>
      var p := s.commits[k].from.value;
      && p < |s.accepted| && s.commits[k].step == CallSteps.Event(s.accepted[p].attempt, s.accepted[p].ev)
      && RecordOutcome(s.dbs[k], s.accepted[p].attempt, s.accepted[p].ev) == Ok(Applied)
  }

  /** The receiver has run through commits of the calls. Ours among them apply accepted posts, each at most
    * once and in the order of acceptance, and every acknowledged event is recorded. */
  ghost predicate OnceInOrder(s: System) {
    && |s.dbs| == |s.commits| + 1 && WellFormed(s.Receiver())
    && (forall k :: 0 <= k < |s.commits| ==> CommitsAt(s, k) && AppliesPost(s, k))
    && (forall k, l :: 0 <= k < l < |s.commits| && s.commits[k].from.Some? && s.commits[l].from.Some? ==>
          s.commits[k].from.value < s.commits[l].from.value)
    && (forall i :: 0 <= i < |s.accepted| ==> Identified(s.accepted[i]))
    && (forall i :: 0 <= i < |s.settled| && i < |s.accepted| && s.settled[i].Acknowledged? ==>
          Recorded(s.Receiver(), s.accepted[i]))
  }

  /** The bookkeeping behind it: no position past the settled ones has been applied, except that of the head,
    * whose event is then recorded. */
  ghost predicate Fresh(s: System)
    requires OnceInOrder(s)
  {
    && (forall k :: 0 <= k < |s.commits| && s.commits[k].from.Some? ==>
          && s.commits[k].from.value <= |s.settled| && s.commits[k].from.value < |s.accepted|
          && Recorded(s.Receiver(), s.accepted[s.commits[k].from.value]))
    && (s.answer.Some? && s.answer.value.Ok? ==> s.queue.items != [] && Recorded(s.Receiver(), s.queue.items[0].post))
    && (s.answer.Some? ==> s.queue.phase == Posting)
  }

  // -------------------------------------------------------------------- conservation

  const NO_EVENT := ProviderEvent("", None, "", 0, None, None, None, Raw(None, None, None))

  lemma KeepsSound(s: System, act: Action, limits: Limits)
    requires s.dbs != [] && Enabled(s, act)
    requires limits.maxAttempts >= 1 && Sound(s.queue, limits.maxSize, limits.maxAttempts)
    ensures Sound(Next(s, act, limits).queue, limits.maxSize, limits.maxAttempts)
  {
    StaysSound(s.queue, if act.Offer? then act.post else Post("", NO_EVENT), act.Fail? && act.retryable,
               limits.maxSize, limits.maxAttempts);
    hide Sound, RecordEvent, RecordOutcome, Enqueued, AfterSuccess, AfterFailure, Continued;
  }

  lemma PostsOf(items: seq<Item>, item: Item)
    ensures Posts(items + [item]) == Posts(items) + [item.post]
    ensures items != [] ==> Posts(items[1..]) == Posts(items)[1..]
    ensures items != [] ==> Posts([items[0].(attempts := item.attempts)] + items[1..]) == Posts(items)
  {
  }

  lemma KeepsConserving(s: System, act: Action, limits: Limits)
    requires limits.maxAttempts >= 1 && Conserves(s, limits) && Enabled(s, act)
    ensures Conserves(Next(s, act, limits), limits)
  {
    KeepsSound(s, act, limits);
    hide Sound, RecordEvent, RecordOutcome, Posts;
    match act
    case Offer(post) =>
      PostsOf(s.queue.items, Item(post, 0));
      assert (s.accepted + [post])[|s.settled|..] == s.accepted[|s.settled|..] + [post];
    case Succeed =>
      PostsOf(s.queue.items, s.queue.items[0]);
      assert (s.settled + [Acknowledged])[..|s.settled|] == s.settled;
    case Fail(_) =>
      PostsOf(s.queue.items, s.queue.items[0].(attempts := s.queue.items[0].attempts + 1));
      assert (s.settled + [DeadLettered])[..|s.settled|] == s.settled;
    case _ =>
  }

  // ---------------------------------------------------------------------- once, in order

  /** No step of any writer forgets a recorded event. */
  lemma RecordsMore(db: Db, step: CallSteps.Step, db': Db)
    requires WellFormed(db) && CallSteps.Next(db, step, db')
    ensures forall k :: k in db.recorded ==> k in db'.recorded && db'.recorded[k] == db.recorded[k]
  {
    hide WellFormed, AttemptAfter, TaskAfter, NewAttempt, TasksFollow, SnapshotAttempts, ReapAttempts, Claims;
    hide StatusUpdatedTask, StatusUpdatedAttempt, HungUpTask, HungUpAttempt, FailedAttempt;
  }

  lemma StillRecorded(db: Db, db': Db)
    requires forall k :: k in db.recorded ==> k in db'.recorded && db'.recorded[k] == db.recorded[k]
    ensures forall post :: Recorded(db, post) ==> Recorded(db', post)
  {
  }

  lemma OutcomeRecords(db: Db, post: Post)
    requires Identified(post)
    ensures RecordOutcome(db, post.attempt, post.ev).Ok? ==> Recorded(RecordEvent(db, post.attempt, post.ev), post)
    ensures RecordOutcome(db, post.attempt, post.ev) == Ok(Applied) ==> !Recorded(db, post)
    ensures RecordOutcome(db, post.attempt, post.ev) != Ok(Applied) ==> RecordEvent(db, post.attempt, post.ev) == db
  {
    hide AttemptAfter, TaskAfter;
  }

  lemma Head(s: System, limits: Limits)
    requires Conserves(s, limits) && s.queue.items != []
    ensures |s.settled| < |s.accepted| && s.queue.items[0].post == s.accepted[|s.settled|]
  {
    assert Posts(s.queue.items)[0] == s.accepted[|s.settled|..][0];
    hide Sound;
  }

  lemma CommitsStay(s: System, step: CallSteps.Step, from: Option<nat>, db': Db)
    requires OnceInOrder(s) && CallSteps.Next(s.Receiver(), step, db')
    requires AppliesPost(Committed(s, step, from, db'), |s.commits|)
    ensures var s' := Committed(s, step, from, db');
      forall k :: 0 <= k < |s'.commits| ==> CommitsAt(s', k) && AppliesPost(s', k)
  {
    var s' := Committed(s, step, from, db');
    hide Recorded, WellFormed, CallSteps.Next, RecordOutcome;
    forall k | 0 <= k < |s'.commits|
      ensures CommitsAt(s', k) && AppliesPost(s', k)
    {
      if k < |s.commits| {
        assert CommitsAt(s, k) && AppliesPost(s, k);
      }
    }
  }

  /** One more commit: the old ones stay, and what was recorded still is. */
  lemma CommitKeeps(s: System, step: CallSteps.Step, from: Option<nat>, db': Db)
    requires OnceInOrder(s) && Fresh(s) && CallSteps.Next(s.Receiver(), step, db')
    requires var s' := Committed(s, step, from, db'); AppliesPost(s', |s.commits|)
    requires from.Some? ==>
      && from.value == |s.settled| && Recorded(db', s.accepted[|s.settled|])
      && forall k :: 0 <= k < |s.commits| && s.commits[k].from.Some? ==> s.commits[k].from.value < |s.settled|
    ensures var s' := Committed(s, step, from, db'); OnceInOrder(s') && Fresh(s')
  {
    assert from.Some? ==> |s.settled| < |s.accepted|;
    CommitsStay(s, step, from, db');
    CallHistory.KeepsWellFormed(s.Receiver(), step, db');
    RecordsMore(s.Receiver(), step, db');
    StillRecorded(s.Receiver(), db');
    hide Recorded, WellFormed, CallSteps.Next, CommitsAt, AppliesPost;
    assert OnceInOrder(Committed(s, step, from, db'));
  }

  lemma ArrivalKeeps(s: System, limits: Limits)
    requires Conserves(s, limits) && OnceInOrder(s) && Fresh(s) && Enabled(s, Arrive)
    ensures var s' := Next(s, Arrive, limits); OnceInOrder(s') && Fresh(s')
  {
    Head(s, limits);
    var head, db := s.accepted[|s.settled|], s.Receiver();
    var outcome := RecordOutcome(db, head.attempt, head.ev);
    OutcomeRecords(db, head);
    AnswerKeeps(s, outcome);
    if outcome == Ok(Applied) {
      HeadIsNew(s, limits);
      hide Conserves, Recorded, RecordOutcome, RecordEvent, OnceInOrder, Fresh;
      CommitKeeps(s, CallSteps.Event(head.attempt, head.ev), Some(|s.settled|), RecordEvent(db, head.attempt, head.ev));
      AnswerKeeps(Committed(s, CallSteps.Event(head.attempt, head.ev), Some(|s.settled|),
                            RecordEvent(db, head.attempt, head.ev)), outcome);
    }
  }

  lemma SameCommits(s: System, s': System)
    requires |s.dbs| == |s.commits| + 1 && s'.dbs == s.dbs && s'.commits == s.commits && s.accepted <= s'.accepted
    requires forall k :: 0 <= k < |s.commits| ==> CommitsAt(s, k) && AppliesPost(s, k)
    ensures forall k :: 0 <= k < |s'.commits| ==> CommitsAt(s', k) && AppliesPost(s', k)
  {
    hide WellFormed, CallSteps.Next, RecordOutcome;
    forall k | 0 <= k < |s.commits|
      ensures CommitsAt(s', k) && AppliesPost(s', k)
    {
      assert CommitsAt(s, k) && AppliesPost(s, k);
    }
  }

  lemma AnswerKeeps(s: System, outcome: Result<Recording, RecordError>)
    requires OnceInOrder(s) && Fresh(s) && s.queue.phase == Posting && s.queue.items != []
    ensures OnceInOrder(s.(answer := Some(outcome)))
    ensures (outcome.Ok? ==> Recorded(s.Receiver(), s.queue.items[0].post)) ==> Fresh(s.(answer := Some(outcome)))
  {
    SameCommits(s, s.(answer := Some(outcome)));
    hide CommitsAt, AppliesPost, Recorded, WellFormed;
  }

  /** The head is applied only if it has not been before. */
  lemma HeadIsNew(s: System, limits: Limits)
    requires Conserves(s, limits) && OnceInOrder(s) && Fresh(s) && |s.settled| < |s.accepted|
    requires !Recorded(s.Receiver(), s.accepted[|s.settled|])
    ensures forall k :: 0 <= k < |s.commits| && s.commits[k].from.Some? ==> s.commits[k].from.value < |s.settled|
  {
    hide Conserves, Recorded, CommitsAt, AppliesPost;
  }

  lemma OthersKeep(s: System, act: Action, limits: Limits)
    requires Conserves(s, limits) && OnceInOrder(s) && Fresh(s) && Enabled(s, act)
    requires !act.Arrive? && !act.Elsewhere? && !act.Offer?
    ensures var s' := Next(s, act, limits); OnceInOrder(s') && Fresh(s')
  {
    if s.queue.items != [] {
      Head(s, limits);
    }
    assert |s.settled| <= |s.accepted|;
    SameCommits(s, Next(s, act, limits));
    hide Conserves, Recorded, WellFormed, CommitsAt, AppliesPost;
  }

  lemma OfferKeeps(s: System, post: Post, limits: Limits)
    requires OnceInOrder(s) && Fresh(s) && Identified(post) && |s.settled| <= |s.accepted|
    ensures var s' := Next(s, Offer(post), limits); OnceInOrder(s') && Fresh(s')
  {
    SameCommits(s, Next(s, Offer(post), limits));
    hide Recorded, WellFormed, CommitsAt, AppliesPost;
  }

  lemma StepKeeps(s: System, act: Action, limits: Limits)
    requires Conserves(s, limits) && OnceInOrder(s) && Fresh(s) && Enabled(s, act) && limits.maxAttempts >= 1
    ensures var s' := Next(s, act, limits); Conserves(s', limits) && OnceInOrder(s') && Fresh(s')
  {
    KeepsConserving(s, act, limits);
    if act.Arrive? {
      ArrivalKeeps(s, limits);
    } else if act.Elsewhere? {
      CommitKeeps(s, act.step, None, act.db');
    } else if act.Offer? {
      OfferKeeps(s, act.post, limits);
    } else {
      OthersKeep(s, act, limits);
    }
    hide Conserves, OnceInOrder, Fresh;
  }

  lemma {:induction false} RunsKeep(states: seq<System>, acts: seq<Action>, db: Db, limits: Limits, i: nat)
    requires IsRun(states, acts, db, limits) && i < |states| && limits.maxAttempts >= 1
    ensures Conserves(states[i], limits) && OnceInOrder(states[i]) && Fresh(states[i])
    ensures states[i].dbs[0] == db
  {
    if i > 0 {
      RunsKeep(states, acts, db, limits, i - 1);
      assert states[i] == Next(states[i - 1], acts[i - 1], limits);
      hide IsRun, Conserves, OnceInOrder, Fresh;
      StepKeeps(states[i - 1], acts[i - 1], limits);
      hide Enabled;
    }
  }

  /** Commit `k` records the event with this key. */
  ghost predicate AppliesKey(s: System, k: nat, key: EventKey)
    requires |s.dbs| == |s.commits| + 1
  {
    && k < |s.commits| && s.commits[k].step.Event? && s.commits[k].step.ev.id.Some?
    && key == EventKey(s.commits[k].step.ev.provider, s.commits[k].step.ev.id.value)
    && RecordOutcome(s.dbs[k], s.commits[k].step.attempt, s.commits[k].step.ev) == Ok(Applied)
  }

  lemma {:induction false} KeyStays(s: System, k: nat, l: nat, key: EventKey)
    requires OnceInOrder(s) && k < l <= |s.commits| && AppliesKey(s, k, key)
    ensures key in s.dbs[l].recorded
    decreases l
  {
    hide WellFormed, RecordOutcome;
    assert CommitsAt(s, l - 1);
    if k < l - 1 {
      KeyStays(s, k, l - 1, key);
      RecordsMore(s.dbs[l - 1], s.commits[l - 1].step, s.dbs[l]);
      hide OnceInOrder, CallSteps.Next;
    } else {
      hide AttemptAfter, TaskAfter;
    }
  }

  /** Of all the commits at the receiver, ours or another writer's, at most one applies an event with a given
    * id. */
  lemma AppliedAtMostOnce(states: seq<System>, acts: seq<Action>, db: Db, limits: Limits, i: nat,
                          k: nat, l: nat, key: EventKey)
    requires IsRun(states, acts, db, limits) && i < |states| && limits.maxAttempts >= 1
    requires |states[i].dbs| == |states[i].commits| + 1
    requires AppliesKey(states[i], k, key) && AppliesKey(states[i], l, key)
    ensures k == l
  {
    RunsKeep(states, acts, db, limits, i);
    hide IsRun, OnceInOrder, Conserves, Fresh;
    if k < l {
      KeyStays(states[i], k, l, key);
    } else if l < k {
      KeyStays(states[i], l, k, key);
    }
  }

  /** In every run, with any other writers at the receiver between any two posts, the receiver runs through
    * commits of the calls from the rows it started with. Ours among them apply accepted posts, each at most
    * once and in the order of acceptance, and every acknowledged event is recorded at the end. */
  lemma AppliedOnceInOrder(states: seq<System>, acts: seq<Action>, db: Db, limits: Limits, i: nat)
    requires IsRun(states, acts, db, limits) && i < |states| && limits.maxAttempts >= 1
    ensures var s := states[i];
      && |s.dbs| == |s.commits| + 1 && s.dbs[0] == db
      && (forall k :: 0 <= k < |s.commits| ==> CommitsAt(s, k) && AppliesPost(s, k))
      && (forall k, l :: 0 <= k < l < |s.commits| && s.commits[k].from.Some? && s.commits[l].from.Some? ==>
            s.commits[k].from.value < s.commits[l].from.value)
      && |s.settled| <= |s.accepted|
      && (forall j :: 0 <= j < |s.settled| && s.settled[j].Acknowledged? ==> Recorded(s.Receiver(), s.accepted[j]))
  {
    RunsKeep(states, acts, db, limits, i);
    hide IsRun, Sound, Posts, Recorded, CommitsAt, AppliesPost, WellFormed;
  }

  /** Nothing is lost on the way: what was accepted has been settled from the front or is still queued, in
    * order; what was settled was acknowledged or is a dead letter; and while anything is queued, the
    * drainer is at work unless the worker has been stopped. */
  lemma NothingIsLost(states: seq<System>, acts: seq<Action>, db: Db, limits: Limits, i: nat)
    requires IsRun(states, acts, db, limits) && i < |states| && limits.maxAttempts >= 1
    ensures |states[i].accepted| == |states[i].settled| + |states[i].queue.items|
    ensures forall j :: 0 <= j < |states[i].queue.items| ==>
      states[i].queue.items[j].post == states[i].accepted[|states[i].settled| + j]
    ensures states[i].queue.deadLetters == CountDead(states[i].settled)
    ensures |states[i].queue.items| <= limits.maxSize
    ensures states[i].queue.items != [] && !states[i].queue.stopped ==> states[i].queue.phase != Resting
  {
    RunsKeep(states, acts, db, limits, i);
    hide IsRun, OnceInOrder;
    var s := states[i];
    assert |Posts(s.queue.items)| == |s.accepted| - |s.settled|;
    forall j | 0 <= j < |s.queue.items|
      ensures s.queue.items[j].post == s.accepted[|s.settled| + j]
    {
      assert Posts(s.queue.items)[j] == s.accepted[|s.settled|..][j];
    }
  }

  /** The ids are what makes a retry harmless: an event that was applied is applied again when its post is
    * repeated exactly if it has none. */
  lemma RepeatIsAppliedIffUnidentified(db: Db, post: Post)
    requires RecordOutcome(db, post.attempt, post.ev) == Ok(Applied)
    ensures var db' := RecordEvent(db, post.attempt, post.ev);
      RecordOutcome(db', post.attempt, post.ev) == Ok(Applied) <==> !Identified(post)
  {
    var t, a := db.TaskOf(post.attempt), db.attempts[post.attempt];
    CallStore.EventKeepsIdentity(t, a, post.ev);
    hide AttemptAfter, TaskAfter;
  }

  // ------------------------------------------------------------ how posts are given up

  /** What a failed post does: one that may be retried, and is not the last of the attempts, stays at the head with
    * one more attempt, to be posted again after a wait; any other is a dead letter. */
  lemma FailureKeepsOrDrops(s: System, retryable: bool, limits: Limits)
    requires s.dbs != [] && Enabled(s, Fail(retryable))
    ensures var s', items := Next(s, Fail(retryable), limits), s.queue.items;
      if retryable && items[0].attempts + 1 < limits.maxAttempts
      then s' == s.(answer := None,
                    queue := s.queue.(items := [Item(items[0].post, items[0].attempts + 1)] + items[1..],
                                      healthy := false, phase := BackingOff))
      else s' == s.(answer := None, settled := s.settled + [DeadLettered],
                    queue := s.queue.(items := items[1..], healthy := false, phase := WritingDeadLetter,
                                      deadLetters := s.queue.deadLetters + 1))
  {
  }

  /** What the other actions of the queue do: an offer is accepted below the bound, and wakes a drainer that rests;
    * a post that succeeded is acknowledged and taken off; and the drainer goes on as long as there is something
    * and it has not been stopped. */
  lemma QueueMoves(s: System, act: Action, limits: Limits)
    requires s.dbs != [] && Enabled(s, act)
    ensures var s', q, room := Next(s, act, limits), s.queue, |s.queue.items| < limits.maxSize;
      match act
      case Offer(post) =>
        && s'.accepted == s.accepted + (if room then [post] else [])
        && s' == s.(accepted := s'.accepted,
                    queue := q.(items := q.items + (if room then [Item(post, 0)] else []),
                                healthy := q.healthy && room,
                                phase := if room && q.phase == Resting && !q.stopped then Posting else q.phase))
      case Succeed =>
        s' == s.(answer := None, settled := s.settled + [Acknowledged],
                 queue := q.(items := q.items[1..], healthy := true,
                             phase := if |q.items| > 1 && !q.stopped then Posting else Resting))
      case Continue => s' == s.(queue := q.(phase := if q.items != [] && !q.stopped then Posting else Resting))
      case Stop => s' == s.(queue := q.(stopped := true))
      case Elsewhere(_, _) => s'.queue == q && s'.settled == s.settled && s'.accepted == s.accepted
      case Arrive => s'.queue == q && s'.settled == s.settled && s'.accepted == s.accepted
      case Fail(_) => true
  {
    hide RecordOutcome, RecordEvent, AfterFailure, GivesUp;
  }

  /** How often the post at position `p` has failed before step `n`. */
  function Failures(states: seq<System>, acts: seq<Action>, p: nat, n: nat): nat
    requires n <= |acts| < |states|
  {
    if n == 0 then 0
    else Failures(states, acts, p, n - 1) + if acts[n - 1].Fail? && |states[n - 1].settled| == p then 1 else 0
  }

  /** The attempts of the head are the failures of its post, and posts behind it have never failed. */
  ghost predicate Counted(states: seq<System>, acts: seq<Action>, i: nat)
    requires i <= |acts| < |states|
  {
    var s := states[i];
    && Failures(states, acts, |s.settled|, i) == (if s.queue.items != [] then s.queue.items[0].attempts else 0)
    && forall p: nat :: p > |s.settled| ==> Failures(states, acts, p, i) == 0
  }

  lemma StepCounts(states: seq<System>, acts: seq<Action>, i: nat, limits: Limits)
    requires i < |acts| < |states| && states[i].dbs != [] && Enabled(states[i], acts[i])
    requires Sound(states[i].queue, limits.maxSize, limits.maxAttempts) && Counted(states, acts, i)
    requires states[i + 1] == Next(states[i], acts[i], limits)
    ensures Counted(states, acts, i + 1)
  {
    if acts[i].Fail? {
      FailureKeepsOrDrops(states[i], acts[i].retryable, limits);
    } else {
      QueueMoves(states[i], acts[i], limits);
    }
    OneMoreStep(states, acts, i);
    hide Next, Failures, WellFormed, CallSteps.Next;
  }

  lemma OneMoreStep(states: seq<System>, acts: seq<Action>, i: nat)
    requires i < |acts| < |states|
    ensures forall p: nat {:trigger Failures(states, acts, p, i + 1)} ::
      Failures(states, acts, p, i + 1) ==
        Failures(states, acts, p, i) + (if acts[i].Fail? && |states[i].settled| == p then 1 else 0)
  {
  }

  lemma {:induction false} RunsCount(states: seq<System>, acts: seq<Action>, db: Db, limits: Limits, i: nat)
    requires IsRun(states, acts, db, limits) && i <= |acts| && limits.maxAttempts >= 1
    ensures |states| == |acts| + 1 && Counted(states, acts, i)
  {
    if i > 0 {
      RunsCount(states, acts, db, limits, i - 1);
      RunsKeep(states, acts, db, limits, i - 1);
      assert states[i] == Next(states[i - 1], acts[i - 1], limits);
      hide Next, Sound, OnceInOrder, Fresh, Counted, Posts;
      StepCounts(states, acts, i - 1, limits);
      hide IsRun, Conserves, Enabled;
    }
  }

  /** In every run a failure makes its post a dead letter exactly if it is not retryable or is the last of the
    * attempts that are allowed; otherwise nothing is settled. */
  lemma FailureSettlesIff(states: seq<System>, acts: seq<Action>, db: Db, limits: Limits, k: nat)
    requires IsRun(states, acts, db, limits) && k < |acts| && acts[k].Fail? && limits.maxAttempts >= 1
    ensures |states| == |acts| + 1
    ensures var n := Failures(states, acts, |states[k].settled|, k + 1);
      && 1 <= n <= limits.maxAttempts
      && states[k + 1].settled ==
           states[k].settled + if !acts[k].retryable || n == limits.maxAttempts then [DeadLettered] else []
  {
    RunsCount(states, acts, db, limits, k);
    RunsKeep(states, acts, db, limits, k);
    assert states[k + 1] == Next(states[k], acts[k], limits);
    FailureKeepsOrDrops(states[k], acts[k].retryable, limits);
    hide Next, OnceInOrder, Fresh, Posts;
  }

  lemma SettledStays(states: seq<System>, acts: seq<Action>, db: Db, limits: Limits, k: nat)
    requires IsRun(states, acts, db, limits) && k < |acts|
    ensures |states| == |acts| + 1
    ensures states[k + 1].settled == states[k].settled
      || (acts[k].Succeed? && states[k + 1].settled == states[k].settled + [Acknowledged])
      || (acts[k].Fail? && states[k + 1].settled == states[k].settled + [DeadLettered])
  {
    assert states[k + 1] == Next(states[k], acts[k], limits);
    if acts[k].Fail? {
      FailureKeepsOrDrops(states[k], acts[k].retryable, limits);
    } else {
      QueueMoves(states[k], acts[k], limits);
    }
    hide Next;
  }

  /** In every run, what settled a post: it was acknowledged by a success, or became a dead letter by a failure that
    * was not retryable or was the last of the attempts, after failures that were all retryable. */
  lemma {:induction false} SettledByItsLastPost(states: seq<System>, acts: seq<Action>, db: Db, limits: Limits,
                                                i: nat, p: nat) returns (k: nat)
    requires IsRun(states, acts, db, limits) && i < |states| && p < |states[i].settled| && limits.maxAttempts >= 1
    ensures k < i && |states| == |acts| + 1 && |states[k].settled| == p
    ensures states[i].settled[p].Acknowledged? <==> acts[k].Succeed?
    ensures states[i].settled[p].DeadLettered? <==> acts[k].Fail?
    ensures acts[k].Fail? ==> !acts[k].retryable || Failures(states, acts, p, k + 1) == limits.maxAttempts
    ensures forall j :: 0 <= j < k && acts[j].Fail? && |states[j].settled| == p ==> acts[j].retryable
  {
    assert states[0].settled == [];
    if i > 0 {
      SettledStays(states, acts, db, limits, i - 1);
      if p < |states[i - 1].settled| {
        k := SettledByItsLastPost(states, acts, db, limits, i - 1, p);
      } else {
        k := i - 1;
        if acts[k].Fail? {
          FailureSettlesIff(states, acts, db, limits, k);
        }
        EarlierFailuresWereRetryable(states, acts, db, limits, k, p);
      }
    }
    hide IsRun, Failures;
  }

  lemma {:induction false} SettledGrows(states: seq<System>, acts: seq<Action>, db: Db, limits: Limits, j: nat, k: nat)
    requires IsRun(states, acts, db, limits) && j <= k <= |acts|
    ensures |states| == |acts| + 1 && |states[j].settled| <= |states[k].settled|
    decreases k
  {
    if j < k {
      SettledGrows(states, acts, db, limits, j, k - 1);
      SettledStays(states, acts, db, limits, k - 1);
    }
    hide *;
  }

  lemma EarlierFailuresWereRetryable(states: seq<System>, acts: seq<Action>, db: Db, limits: Limits, k: nat, p: nat)
    requires IsRun(states, acts, db, limits) && k < |acts| && limits.maxAttempts >= 1
    requires |states| == |acts| + 1 && |states[k].settled| == p
    ensures forall j :: 0 <= j < k && acts[j].Fail? && |states[j].settled| == p ==> acts[j].retryable
  {
    forall j | 0 <= j < k && acts[j].Fail? && |states[j].settled| == p
      ensures acts[j].retryable
    {
      FailureSettlesIff(states, acts, db, limits, j);
      SettledGrows(states, acts, db, limits, j + 1, k);
      hide IsRun, Failures;
    }
    hide *;
  }
}
