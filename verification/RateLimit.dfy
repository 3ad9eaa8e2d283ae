/** The sliding-window limit on anonymous calls. */
module RateLimit {
  type Time = int

  const MAX_CALLS := 6
  const WINDOW_MS := 10 * 60 * 1000
  const MAX_KEYS := 10_000

  function Recent(stamps: seq<Time>, now: Time): (r: seq<Time>)
    ensures |r| <= |stamps|
  {
    if stamps == [] then [] else
    Recent(stamps[..|stamps| - 1], now) + if now - stamps[|stamps| - 1] < WINDOW_MS then [stamps[|stamps| - 1]] else []
  }

  ghost predicate Ordered(stamps: seq<Time>, last: Time) {
    && (forall i, j :: 0 <= i < j < |stamps| ==> stamps[i] <= stamps[j])
    && (forall i :: 0 <= i < |stamps| ==> stamps[i] <= last)
  }

  /** No window holds more calls than are allowed. */
  ghost predicate Limited(calls: seq<Time>) {
    forall i :: 0 <= i < |calls| - MAX_CALLS ==> calls[i + MAX_CALLS] - calls[i] >= WINDOW_MS
  }

  lemma {:induction false} RecentOfRecent(stamps: seq<Time>, before: Time, now: Time)
    requires before <= now
    ensures Recent(Recent(stamps, before), now) == Recent(stamps, now)
  {
    if stamps != [] {
      var rest, x := stamps[..|stamps| - 1], stamps[|stamps| - 1];
      RecentOfRecent(rest, before, now);
      var r := Recent(rest, before);
      assert (r + [x])[..|r|] == r;
      assert r + [] == r && Recent(rest, now) + [] == Recent(rest, now);
    }
  }

  lemma RecentSnoc(stamps: seq<Time>, x: Time, now: Time)
    ensures Recent(stamps + [x], now) == Recent(stamps, now) + if now - x < WINDOW_MS then [x] else []
  {
    assert (stamps + [x])[..|stamps|] == stamps;
  }

  /** Dropping stamps early never makes more of them recent, whatever the clock reads later. */
  lemma {:induction false} FewerAfterDropping(stamps: seq<Time>, before: Time, now: Time)
    ensures |Recent(Recent(stamps, before), now)| <= |Recent(stamps, now)|
  {
    if stamps != [] {
      var rest, x := stamps[..|stamps| - 1], stamps[|stamps| - 1];
      FewerAfterDropping(rest, before, now);
      RecentSnoc(Recent(rest, before), x, now);
      assert Recent(rest, before) + [] == Recent(rest, before);
    }
  }

  lemma {:induction false} RecentSuffix(stamps: seq<Time>, last: Time, now: Time, n: nat)
    requires Ordered(stamps, last) && n <= |stamps| && (n > 0 ==> now - stamps[|stamps| - n] < WINDOW_MS)
    ensures |Recent(stamps, now)| >= n
    decreases n
  {
    if n > 0 {
      RecentSuffix(stamps[..|stamps| - 1], last, now, n - 1);
    }
  }

  lemma {:induction false} NoneRecent(stamps: seq<Time>, now: Time)
    requires forall i :: 0 <= i < |stamps| ==> now - stamps[i] >= WINDOW_MS
    ensures Recent(stamps, now) == []
  {
    if stamps != [] {
      NoneRecent(stamps[..|stamps| - 1], now);
    }
  }

  /** What is kept of one key, where `latest` is the latest reading of the clock: what has been dropped never
    * counts again unless the clock is set back. */
  ghost predicate Represents(stamps: seq<Time>, calls: seq<Time>, latest: Time) {
    && (forall n :: |Recent(stamps, n)| <= |Recent(calls, n)|)
    && (forall n :: n >= latest ==> Recent(stamps, n) == Recent(calls, n))
  }

  /** As long as the clock has never been set back, the limit has been kept, too. */
  ghost predicate Accounted(stamps: seq<Time>, calls: seq<Time>, latest: Time, steady: bool) {
    Represents(stamps, calls, latest) && (steady ==> Ordered(calls, latest) && Limited(calls))
  }

  function Later(a: Time, b: Time): Time {
    if a < b then b else a
  }

  /** A call is allowed only if few have been in the window that ends at the latest reading, and refused only
    * if many have been in the window that ends now. */
  lemma JudgedByKept(stamps: seq<Time>, calls: seq<Time>, latest: Time, steady: bool, now: Time)
    requires Accounted(stamps, calls, latest, steady)
    ensures |Recent(calls, Later(latest, now))| <= |Recent(stamps, now)| <= |Recent(calls, now)|
  {
    RecentOfRecent(stamps, now, Later(latest, now));
  }

  lemma StaysLimited(calls: seq<Time>, now: Time)
    requires Ordered(calls, now) && Limited(calls) && |Recent(calls, now)| < MAX_CALLS
    ensures Ordered(calls + [now], now) && Limited(calls + [now])
  {
    if |calls| >= MAX_CALLS && now - calls[|calls| - MAX_CALLS] < WINDOW_MS {
      RecentSuffix(calls, now, now, MAX_CALLS);
    }
    hide Recent;
    var more := calls + [now];
    forall i | 0 <= i < |more| - MAX_CALLS
      ensures more[i + MAX_CALLS] - more[i] >= WINDOW_MS
    {
      if i + MAX_CALLS < |calls| {
        assert calls[i + MAX_CALLS] - calls[i] >= WINDOW_MS;
      }
    }
  }

  lemma OneMoreIsRepresented(stamps: seq<Time>, calls: seq<Time>, latest: Time, now: Time)
    requires Represents(stamps, calls, latest)
    ensures Represents(Recent(stamps, now) + [now], calls + [now], Later(latest, now))
  {
    var kept := Recent(stamps, now);
    hide Recent;
    forall n
      ensures |Recent(kept + [now], n)| <= |Recent(calls + [now], n)|
      ensures n >= Later(latest, now) ==> Recent(kept + [now], n) == Recent(calls + [now], n)
    {
      RecentSnoc(kept, now, n);
      RecentSnoc(calls, now, n);
      FewerAfterDropping(stamps, now, n);
      assert |Recent(stamps, n)| <= |Recent(calls, n)|;
      if n >= Later(latest, now) {
        RecentOfRecent(stamps, now, n);
        assert Recent(stamps, n) == Recent(calls, n);
      }
    }
  }

  lemma OneMoreCall(stamps: seq<Time>, calls: seq<Time>, latest: Time, steady: bool, now: Time)
    requires Accounted(stamps, calls, latest, steady) && |Recent(stamps, now)| < MAX_CALLS
    ensures Accounted(Recent(stamps, now) + [now], calls + [now], Later(latest, now), steady && now >= latest)
  {
    OneMoreIsRepresented(stamps, calls, latest, now);
    if steady && now >= latest {
      assert Recent(stamps, now) == Recent(calls, now);
      StaysLimited(calls, now);
    }
    hide Recent, Limited, Represents;
  }

  lemma Forgotten(stamps: seq<Time>, calls: seq<Time>, latest: Time, now: Time)
    requires Represents(stamps, calls, latest) && now <= latest
    requires forall i :: 0 <= i < |stamps| ==> now - stamps[i] >= WINDOW_MS
    ensures Represents([], calls, latest)
  {
    forall n | n >= latest
      ensures Recent([], n) == Recent(calls, n)
    {
      NoneRecent(stamps, n);
      assert Recent(stamps, n) == Recent(calls, n);
    }
  }

  /** A clock that is set back finds calls gone that it would count: of any number of calls at one time and one
    * more when they have left the window, one is kept, and at the earlier time all would be in the window. */
  lemma SetBackClockForgets(calls: seq<Time>, at: Time)
    requires forall i :: 0 <= i < |calls| ==> calls[i] == at
    ensures |Recent(Recent(calls, at + WINDOW_MS) + [at + WINDOW_MS], at)| == 1
    ensures |Recent(calls + [at + WINDOW_MS], at)| == |calls| + 1
  {
    NoneRecent(calls, at + WINDOW_MS);
    RecentSnoc([], at + WINDOW_MS, at);
    RecentSnoc(calls, at + WINDOW_MS, at);
    AllRecent(calls, at);
  }

  lemma {:induction false} AllRecent(stamps: seq<Time>, now: Time)
    requires forall i :: 0 <= i < |stamps| ==> now - stamps[i] < WINDOW_MS
    ensures Recent(stamps, now) == stamps
  {
    if stamps != [] {
      AllRecent(stamps[..|stamps| - 1], now);
    }
  }

  class WebDemoController {
    var callTimestamps: map<string, seq<Time>>
    ghost var calls: map<string, seq<Time>>

    /** The latest reading of the clock, and whether it has never been set back. */
    ghost var clock: Time
    ghost var steady: bool

    function Stamps(key: string): seq<Time>
      reads this`callTimestamps
    {
      if key in callTimestamps then callTimestamps[key] else []
    }

    /** Every call that was ever allowed for this key. */
    ghost function CallsOf(key: string): seq<Time>
      reads this`calls
    {
      if key in calls then calls[key] else []
    }

    ghost predicate Valid()
      reads this
    {
      forall key :: Accounted(Stamps(key), CallsOf(key), clock, steady)
    }

    constructor (now: Time)
      ensures Valid() && clock == now && steady && forall key :: CallsOf(key) == []
    {
      callTimestamps, calls, clock, steady := map[], map[], now, true;
    }

    /** A call is refused only if the maximum has been reached in the window that ends now, and allowed only if
      * it has not been in the window that ends at the latest reading of the clock. Unless the clock has been
      * set back these are the same. */
    method AssertRateLimit(key: string, now: Time) returns (allowed: bool)
      requires Valid()
      modifies this
      ensures Valid() && clock == Later(old(clock), now) && steady == (old(steady) && now >= old(clock))
      ensures |Recent(old(CallsOf(key)), now)| < MAX_CALLS ==> allowed
      ensures allowed ==> |Recent(old(CallsOf(key)), clock)| < MAX_CALLS
      ensures CallsOf(key) == old(CallsOf(key)) + (if allowed then [now] else [])
      ensures forall other :: other != key ==> CallsOf(other) == old(CallsOf(other))
    {
      hide Accounted, Recent;
      JudgedByKept(Stamps(key), CallsOf(key), clock, steady, now);
      var stamps := Filter(Stamps(key), now);
      if |stamps| >= MAX_CALLS {
        TimePasses(now);
        return false;
      }
      Record(key, stamps, now);
      if |callTimestamps| > MAX_KEYS {
        DropExpired(now);
      }
      allowed := true;
    }

    /** Notes a call that is allowed. */
    method Record(key: string, stamps: seq<Time>, now: Time)
      requires Valid() && stamps == Recent(Stamps(key), now) && |stamps| < MAX_CALLS
      modifies this
      ensures Valid() && clock == Later(old(clock), now) && steady == (old(steady) && now >= old(clock))
      ensures CallsOf(key) == old(CallsOf(key)) + [now]
      ensures forall other :: other != key ==> CallsOf(other) == old(CallsOf(other))
    {
      hide Accounted, Recent;
      OneMoreCall(Stamps(key), CallsOf(key), clock, steady, now);
      TimePasses(now);
      label Before:
      callTimestamps := callTimestamps[key := stamps + [now]];
      calls := calls[key := CallsOf(key) + [now]];
      forall k
        ensures Accounted(Stamps(k), CallsOf(k), clock, steady)
      {
        assert k != key ==> Stamps(k) == old@Before(Stamps(k)) && CallsOf(k) == old@Before(CallsOf(k));
      }
    }

    ghost method TimePasses(now: Time)
      requires Valid()
      modifies this`clock, this`steady
      ensures Valid() && clock == Later(old(clock), now) && steady == (old(steady) && now >= old(clock))
    {
      hide Recent, Limited;
      steady := steady && now >= clock;
      clock := Later(clock, now);
    }

    method Filter(stamps: seq<Time>, now: Time) returns (r: seq<Time>)
      ensures r == Recent(stamps, now)
    {
      r := [];
      for i := 0 to |stamps|
        invariant r == Recent(stamps[..i], now)
      {
        assert stamps[..i + 1][..i] == stamps[..i];
        if now - stamps[i] < WINDOW_MS {
          r := r + [stamps[i]];
        }
      }
      assert stamps[..|stamps|] == stamps;
    }

    /** Forgets the keys whose stamps have all left the window. */
    method DropExpired(now: Time)
      requires Valid() && now <= clock
      modifies this`callTimestamps
      ensures Valid()
    {
      hide Represents, Recent, Ordered, Limited;
      var remaining := callTimestamps.Keys;
      while remaining != {}
        invariant remaining <= callTimestamps.Keys && Valid()
        decreases remaining
      {
        var key :| key in remaining;
        assert Accounted(Stamps(key), CallsOf(key), clock, steady);
        var stamps := callTimestamps[key];
        if forall i :: 0 <= i < |stamps| ==> now - stamps[i] >= WINDOW_MS {
          Forgotten(stamps, CallsOf(key), clock, now);
          label Before:
          callTimestamps := callTimestamps - {key};
          forall k
            ensures Accounted(Stamps(k), CallsOf(k), clock, steady)
          {
            assert k != key ==> Stamps(k) == old@Before(Stamps(k));
          }
        }
        remaining := remaining - {key};
      }
    }
  }
}
