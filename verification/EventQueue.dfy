/** The delivery queue of provider events: an object that one drainer empties. */
module EventQueue {
  import opened Options
  import opened CallRows
  import opened ProviderEvents

  /** A provider event and the attempt it is about. */
  datatype Post = Post(attempt: AttemptId, ev: ProviderEvent)

  datatype Item = Item(post: Post, attempts: nat)

  /** What the drainer is waiting for, if it is running. */
  datatype Phase = Resting | Posting | WritingDeadLetter | BackingOff

  datatype Reason = Rejected | Exhausted

  datatype Queue = Queue(
    items: seq<Item>,
    phase: Phase,
    stopped: bool,
    healthy: bool,
    deadLetters: nat)

  const FRESH := Queue([], Resting, false, true, 0)

  predicate Accepts(q: Queue, maxSize: nat) {
    |q.items| < maxSize
  }

  /** The head of the loop of the drainer. */
  function Continued(q: Queue): Queue {
    q.(phase := if q.items != [] && !q.stopped then Posting else Resting)
  }

  function Enqueued(q: Queue, post: Post, maxSize: nat): Queue {
    if !Accepts(q, maxSize) then q.(healthy := false) else
    var longer := q.(items := q.items + [Item(post, 0)]);
    if q.phase == Resting then Continued(longer) else longer
  }

  function AfterSuccess(q: Queue): Queue
    requires q.items != []
  {
    Continued(q.(items := q.items[1..], healthy := true))
  }

  predicate GivesUp(item: Item, retryable: bool, maxAttempts: nat) {
    !retryable || item.attempts + 1 >= maxAttempts
  }

  function AfterFailure(q: Queue, retryable: bool, maxAttempts: nat): Queue
    requires q.items != []
  {
    var tried := q.items[0].(attempts := q.items[0].attempts + 1);
    if GivesUp(q.items[0], retryable, maxAttempts)
    then q.(items := q.items[1..], healthy := false, deadLetters := q.deadLetters + 1, phase := WritingDeadLetter)
    else q.(items := [tried] + q.items[1..], healthy := false, phase := BackingOff)
  }

  /** What the queue keeps: it is bounded, a drainer is at work exactly as long as it must be, posts only
    * the first item, and only that one has been tried before. */
  ghost predicate Sound(q: Queue, maxSize: nat, maxAttempts: nat) {
    && |q.items| <= maxSize
    && (q.items != [] && !q.stopped ==> q.phase != Resting)
    && (q.phase == Posting || q.phase == BackingOff ==> q.items != [])
    && (q.items != [] ==> q.items[0].attempts < maxAttempts)
    && (q.items != [] && (q.phase == WritingDeadLetter || q.phase == Resting) && !q.stopped ==>
          q.items[0].attempts == 0)
    && (forall i :: 1 <= i < |q.items| ==> q.items[i].attempts == 0)
  }

  lemma StaysSound(q: Queue, post: Post, retryable: bool, maxSize: nat, maxAttempts: nat)
    requires Sound(q, maxSize, maxAttempts) && maxAttempts >= 1
    ensures Sound(Enqueued(q, post, maxSize), maxSize, maxAttempts)
    ensures q.phase == Posting ==> Sound(AfterSuccess(q), maxSize, maxAttempts)
    ensures q.phase == Posting ==> Sound(AfterFailure(q, retryable, maxAttempts), maxSize, maxAttempts)
    ensures q.phase != Resting ==> Sound(Continued(q), maxSize, maxAttempts)
    ensures Sound(q.(stopped := true), maxSize, maxAttempts)
  {
  }

  /** The worker, cut at its awaits: each method runs from the end of one wait to the start of the next. */
  class EventWorker {
    const maxQueueSize: nat
    const deliveryMaxAttempts: nat

    var queue: seq<Item>
    var draining: bool
    var stopped: bool
    var deliveryHealthy: bool
    var deadLetterCount: nat
    var awaiting: Phase

    ghost predicate Valid()
      reads this
    {
      && maxQueueSize >= 1 && deliveryMaxAttempts >= 1
      && (draining <==> awaiting != Resting)
      && Sound(State(), maxQueueSize, deliveryMaxAttempts)
    }

    function State(): Queue
      reads this
    {
      Queue(queue, awaiting, stopped, deliveryHealthy, deadLetterCount)
    }

    constructor (maxQueueSize: nat, deliveryMaxAttempts: nat)
      requires maxQueueSize >= 1 && deliveryMaxAttempts >= 1
      ensures Valid() && State() == FRESH
      ensures this.maxQueueSize == maxQueueSize && this.deliveryMaxAttempts == deliveryMaxAttempts
    {
      this.maxQueueSize, this.deliveryMaxAttempts := maxQueueSize, deliveryMaxAttempts;
      queue, draining, stopped, deliveryHealthy, deadLetterCount := [], false, false, true, 0;
      awaiting := Resting;
    }

    method Enqueue(post: Post) returns (accepted: bool)
      requires Valid()
      modifies this
      ensures Valid()
      ensures accepted <==> Accepts(old(State()), maxQueueSize)
      ensures State() == Enqueued(old(State()), post, maxQueueSize)
      ensures accepted <==> |old(queue)| < maxQueueSize
      ensures queue == old(queue) + (if accepted then [Item(post, 0)] else [])
      ensures deliveryHealthy == (old(deliveryHealthy) && accepted) && deadLetterCount == old(deadLetterCount)
      ensures awaiting == if accepted && old(awaiting) == Resting && !stopped then Posting else old(awaiting)
      ensures stopped == old(stopped)
    {
      StaysSound(State(), post, false, maxQueueSize, deliveryMaxAttempts);
      if |queue| >= maxQueueSize {
        deliveryHealthy := false;
        return false;
      }
      queue := queue + [Item(post, 0)];
      if !draining {
        draining := true;
        NextItem();
      }
      accepted := true;
    }

    /** The test of the drainer's loop: post the next item, or stop draining. */
    method NextItem()
      requires draining
      modifies this`draining, this`awaiting
      ensures State() == Continued(old(State())) && (draining <==> awaiting != Resting)
    {
      if |queue| > 0 && !stopped {
        awaiting := Posting;
      } else {
        draining, awaiting := false, Resting;
      }
    }

    method PostSucceeded()
      requires Valid() && awaiting == Posting
      modifies this
      ensures Valid() && State() == AfterSuccess(old(State()))
      ensures queue == old(queue)[1..] && deliveryHealthy && deadLetterCount == old(deadLetterCount)
      ensures awaiting == (if queue != [] && !stopped then Posting else Resting) && stopped == old(stopped)
    {
      StaysSound(State(), queue[0].post, false, maxQueueSize, deliveryMaxAttempts);
      queue := queue[1..];
      deliveryHealthy := true;
      NextItem();
    }

    /** A failure that may be retried, and is not the last of the attempts, keeps the item at the head, to be posted
      * again after a wait. Any other gives it up as a dead letter, and `reason` says why. */
    method PostFailed(retryable: bool) returns (reason: Option<Reason>)
      requires Valid() && awaiting == Posting
      modifies this
      ensures Valid() && State() == AfterFailure(old(State()), retryable, deliveryMaxAttempts)
      ensures retryable && old(queue[0].attempts) + 1 < deliveryMaxAttempts ==>
        && queue == [Item(old(queue[0].post), old(queue[0].attempts) + 1)] + old(queue)[1..]
        && awaiting == BackingOff && deadLetterCount == old(deadLetterCount) && reason == None
      ensures !(retryable && old(queue[0].attempts) + 1 < deliveryMaxAttempts) ==>
        && queue == old(queue)[1..]
        && awaiting == WritingDeadLetter && deadLetterCount == old(deadLetterCount) + 1
        && reason == Some(if retryable then Exhausted else Rejected)
      ensures !deliveryHealthy && stopped == old(stopped)
    {
      StaysSound(State(), queue[0].post, retryable, maxQueueSize, deliveryMaxAttempts);
      var item := queue[0].(attempts := queue[0].attempts + 1);
      queue := [item] + queue[1..];
      deliveryHealthy := false;
      if !retryable || item.attempts >= deliveryMaxAttempts {
        queue := queue[1..];
        deadLetterCount := deadLetterCount + 1;
        awaiting := WritingDeadLetter;
        return Some(if retryable then Exhausted else Rejected);
      }
      awaiting := BackingOff;
      reason := None;
    }

    /** The dead letter has been written, or has failed to be, or the backoff has passed. */
    method Resume()
      requires Valid() && (awaiting == WritingDeadLetter || awaiting == BackingOff)
      modifies this
      ensures Valid() && State() == Continued(old(State()))
      ensures queue == old(queue) && awaiting == (if queue != [] && !stopped then Posting else Resting)
      ensures deliveryHealthy == old(deliveryHealthy) && deadLetterCount == old(deadLetterCount)
      ensures stopped == old(stopped)
    {
      NextItem();
    }

    /** What is being posted is not called back, and what is queued stays queued. */
    method OnModuleDestroy()
      requires Valid()
      modifies this`stopped
      ensures Valid() && State() == old(State()).(stopped := true)
    {
      stopped := true;
    }
  }
}
