/** Metered usage: every bucket is the running sum of the events that were stored for it. */
module UsageAggregates {

  datatype Period = Day | Month

  /** Milliseconds since the epoch. */
  type Time = int

  datatype Event = Event(tenant: string, key: string, metric: string, period: Period, quantity: nat, at: Time)

  datatype Bucket = Bucket(tenant: string, metric: string, period: Period, start: Time)

  datatype Aggregate = Aggregate(quantity: nat, eventCount: nat)

  const NOTHING := Aggregate(0, 0)

  /** The bucket of an event, for any way `start` of cutting time into periods. */
  function BucketOf(e: Event, start: (Time, Period) -> Time): Bucket {
    Bucket(e.tenant, e.metric, e.period, start(e.at, e.period))
  }

  predicate SameKey(a: Event, b: Event) {
    a.tenant == b.tenant && a.key == b.key
  }

  predicate Stored(events: seq<Event>, e: Event) {
    exists i :: 0 <= i < |events| && SameKey(events[i], e)
  }

  /** What the stored events of a bucket add up to. */
  function Total(events: seq<Event>, b: Bucket, start: (Time, Period) -> Time): Aggregate {
    if events == [] then NOTHING else
    var before, last := Total(events[..|events| - 1], b, start), events[|events| - 1];
    if BucketOf(last, start) == b then Aggregate(before.quantity + last.quantity, before.eventCount + 1) else before
  }

  ghost predicate KeysOnce(events: seq<Event>) {
    forall i, j :: 0 <= i < j < |events| ==> !SameKey(events[i], events[j])
  }

  /** One more event adds its quantity, and one to the number, to the bucket of its tenant, metric and period, and
    * nothing to any other. */
  lemma TotalSnoc(events: seq<Event>, e: Event, b: Bucket, start: (Time, Period) -> Time)
    ensures Total([], b, start) == Aggregate(0, 0)
    ensures Total(events + [e], b, start) ==
      var before := Total(events, b, start);
      if e.tenant == b.tenant && e.metric == b.metric && e.period == b.period && start(e.at, e.period) == b.start
      then Aggregate(before.quantity + e.quantity, before.eventCount + 1) else before
  {
    assert (events + [e])[..|events|] == events;
  }

  /** An event is stored exactly if one of its tenant with its key is. */
  lemma StoredIff(events: seq<Event>, e: Event)
    ensures Stored(events, e) <==> exists x :: x in events && x.tenant == e.tenant && x.key == e.key
  {
    if x :| x in events && x.tenant == e.tenant && x.key == e.key {
      var i :| 0 <= i < |events| && events[i] == x;
      assert SameKey(events[i], e);
    }
  }

  /** A key that two stored events share belongs to one event. */
  function Find(events: seq<Event>, e: Event): (r: Event)
    requires Stored(events, e)
    ensures r in events && SameKey(r, e)
  {
    if SameKey(events[0], e) then events[0] else Find(events[1..], e)
  }

  datatype Outcome =
    | Recorded(event: Event, aggregate: Aggregate, duplicate: bool)
    | WriteConflict

  class UsageStore {
    const start: (Time, Period) -> Time
    var events: seq<Event>
    var aggregates: map<Bucket, Aggregate>

    /** Every bucket is the sum and the number of its stored events, and exists if there are any. */
    ghost predicate Valid()
      reads this
    {
      && KeysOnce(events)
      && (forall b :: AggregateOf(b) == Total(events, b, start))
      && (forall b :: b in aggregates <==> Total(events, b, start).eventCount > 0)
    }

    function AggregateOf(b: Bucket): Aggregate
      reads this
    {
      if b in aggregates then aggregates[b] else NOTHING
    }

    constructor (start: (Time, Period) -> Time)
      ensures Valid() && events == [] && this.start == start
    {
      this.start := start;
      events, aggregates := [], map[];
    }

    /** One request. `found` says that the lookup before the transaction has found the key; between the two
      * other requests may have been recorded. `conflicts` says that the transaction loses a race for the
      * row of its bucket, and is rolled back. */
    method RecordUsageEvent(e: Event, found: bool, conflicts: bool) returns (r: Outcome)
      requires Valid() && (found ==> Stored(events, e))
      modifies this
      ensures Valid()
      ensures r.WriteConflict? <==> conflicts && !old(Stored(events, e))
      ensures events == old(events) + (if old(Stored(events, e)) || conflicts then [] else [e])
      ensures r.Recorded? ==>
        && r.event in events && r.event.tenant == e.tenant && r.event.key == e.key
        && r.duplicate == old(Stored(events, e))
        && r.aggregate == Total(events, Bucket(e.tenant, e.metric, e.period, start(e.at, e.period)), start)
    {
      var bucket := BucketOf(e, start);
      if found {
        return Recorded(Find(events, e), AggregateOf(bucket), true);
      }
      if Stored(events, e) {
        // The insert violates the unique key, and the event is looked up again.
        return Recorded(Find(events, e), AggregateOf(bucket), true);
      }
      if conflicts {
        return WriteConflict;
      }
      ghost var before := events;
      events := events + [e];
      var row := AggregateOf(bucket);
      aggregates := aggregates[bucket := Aggregate(row.quantity + e.quantity, row.eventCount + 1)];
      forall b
        ensures AggregateOf(b) == Total(events, b, start)
      {
        TotalSnoc(before, e, b, start);
      }
      r := Recorded(e, AggregateOf(bucket), false);
    }
  }

  // --------------------------------------------------------------------- runs of requests

  /** The stored events after some requests, of which the ones marked `lost` were rolled back. */
  function After(requests: seq<Event>, lost: seq<bool>): seq<Event>
    requires |lost| == |requests|
  {
    if requests == [] then [] else
    var n := |requests| - 1;
    var before := After(requests[..n], lost[..n]);
    if Stored(before, requests[n]) || lost[n] then before else before + [requests[n]]
  }

  /** Request `i` is the first with its key that was not rolled back. */
  ghost predicate Wins(requests: seq<Event>, lost: seq<bool>, i: nat)
    requires |lost| == |requests|
  {
    && i < |requests| && !lost[i]
    && forall j :: 0 <= j < i && SameKey(requests[j], requests[i]) ==> lost[j]
  }

  lemma {:induction false} OneThatGoesThroughIsStored(requests: seq<Event>, lost: seq<bool>)
    requires |lost| == |requests|
    ensures forall i :: 0 <= i < |requests| && !lost[i] ==> Stored(After(requests, lost), requests[i])
  {
    if requests != [] {
      var n := |requests| - 1;
      OneThatGoesThroughIsStored(requests[..n], lost[..n]);
      var before, after := After(requests[..n], lost[..n]), After(requests, lost);
      forall i | 0 <= i < |requests| && !lost[i]
        ensures Stored(after, requests[i])
      {
        if i < n {
          assert requests[..n][i] == requests[i] && !lost[..n][i];
          StoredStays(before, after, requests[i]);
        } else if Stored(before, requests[n]) {
        } else {
          assert after[|before|] == requests[n];
        }
      }
    }
  }

  lemma StoredStays(before: seq<Event>, after: seq<Event>, e: Event)
    requires before <= after && Stored(before, e)
    ensures Stored(after, e)
  {
    var i :| 0 <= i < |before| && SameKey(before[i], e);
    assert after[i] == before[i];
  }

  lemma WinsBefore(requests: seq<Event>, lost: seq<bool>, n: nat, i: nat)
    requires |lost| == |requests| && i < n <= |requests|
    ensures Wins(requests[..n], lost[..n], i) <==> Wins(requests, lost, i)
  {
    assert forall j :: 0 <= j < n ==> requests[..n][j] == requests[j] && lost[..n][j] == lost[j];
    hide SameKey;
  }

  /** However requests for the same keys interleave, each key is stored at most once, exactly if a request
    * for it went through, and with what the first of those asked for. */
  lemma {:induction false} FirstRequestWins(requests: seq<Event>, lost: seq<bool>)
    requires |lost| == |requests|
    ensures KeysOnce(After(requests, lost))
    ensures forall e :: e in After(requests, lost) <==> exists i: nat :: Wins(requests, lost, i) && requests[i] == e
  {
    if requests != [] {
      var n := |requests| - 1;
      FirstRequestWins(requests[..n], lost[..n]);
      LastWinsIff(requests, lost);
      var before, after := After(requests[..n], lost[..n]), After(requests, lost);
      forall i: nat | i < n {
        WinsBefore(requests, lost, n, i);
      }
      assert forall i: nat :: Wins(requests, lost, i) ==> i <= n;
      assert after == before || after == before + [requests[n]];
      hide SameKey, Wins, After;
      forall e
        ensures e in after <==> exists i: nat :: Wins(requests, lost, i) && requests[i] == e
      {
        assert e in after <==> e in before || (Wins(requests, lost, n) && e == requests[n]);
      }
    }
  }

  lemma LastWinsIff(requests: seq<Event>, lost: seq<bool>)
    requires |lost| == |requests| && requests != []
    requires var n := |requests| - 1;
      forall e :: e in After(requests[..n], lost[..n]) <==>
                  exists i: nat :: Wins(requests[..n], lost[..n], i) && requests[..n][i] == e
    ensures var n := |requests| - 1;
      Wins(requests, lost, n) <==> !lost[n] && !Stored(After(requests[..n], lost[..n]), requests[n])
  {
    var n := |requests| - 1;
    var before := After(requests[..n], lost[..n]);
    OneThatGoesThroughIsStored(requests[..n], lost[..n]);
    if Stored(before, requests[n]) {
      var k :| 0 <= k < |before| && SameKey(before[k], requests[n]);
      assert before[k] in before;
      var i: nat :| Wins(requests[..n], lost[..n], i) && requests[..n][i] == before[k];
      assert SameKey(requests[i], requests[n]) && !lost[i];
    }
    forall j | 0 <= j < n && SameKey(requests[j], requests[n]) && !lost[j]
      ensures Stored(before, requests[n])
    {
      assert requests[..n][j] == requests[j] && lost[..n][j] == lost[j];
    }
    hide After;
  }

  lemma AfterSnoc(requests: seq<Event>, lost: seq<bool>, n: nat)
    requires |lost| == |requests| && n < |requests|
    ensures After(requests[..n + 1], lost[..n + 1]) ==
      var before := After(requests[..n], lost[..n]);
      if Stored(before, requests[n]) || lost[n] then before else before + [requests[n]]
  {
    assert requests[..n + 1][..n] == requests[..n] && lost[..n + 1][..n] == lost[..n];
  }

  /** A new store that takes the requests in the order in which their transactions commit or are rolled back.
    * `looked` says whose lookup before the transaction is recent enough to find a key that is stored. */
  method RecordAll(requests: seq<Event>, looked: seq<bool>, lost: seq<bool>, start: (Time, Period) -> Time)
    returns (store: UsageStore)
    requires |looked| == |requests| && |lost| == |requests|
    ensures store.Valid() && store.start == start && store.events == After(requests, lost)
  {
    store := new UsageStore(start);
    for n := 0 to |requests|
      invariant fresh(store) && store.Valid() && store.start == start
      invariant store.events == After(requests[..n], lost[..n])
    {
      AfterSnoc(requests, lost, n);
      var found := looked[n] && Stored(store.events, requests[n]);
      var _ := store.RecordUsageEvent(requests[n], found, lost[n]);
    }
    assert requests[..|requests|] == requests && lost[..|lost|] == lost;
  }
}
