/** The rolling 24-hour block counter of components/dns_proxy/dns_proxy.c: 24 reused
    hourly buckets against the full history of block events. */
module RollingWindow {
  import opened Words

  const HOURS: nat := 24

  /** How many recorded events are less than 24 hours old at `now`. */
  function CountWindow(events: seq<nat>, now: nat): nat {
    if events == [] then 0
    else CountWindow(events[..|events| - 1], now) + if now < events[|events| - 1] + 24 then 1 else 0
  }

  /** ... of which those whose bucket is below k. */
  function CountBuckets(events: seq<nat>, now: nat, k: nat): nat {
    if events == [] then 0
    else
      var e := events[|events| - 1];
      CountBuckets(events[..|events| - 1], now, k) + if now < e + HOURS && e % HOURS < k then 1 else 0
  }

  lemma {:induction false} AllBuckets(events: seq<nat>, now: nat)
    ensures CountBuckets(events, now, 0) == 0
    ensures CountBuckets(events, now, HOURS) == CountWindow(events, now)
  {
    if events != [] {
      AllBuckets(events[..|events| - 1], now);
    }
  }

  /** A bucket holds the latest hour recorded in it, and how often; a bucket never used
      reads hour 0, count 0. */
  ghost predicate Tracks(events: seq<nat>, k: nat, hour: nat, count: nat) {
    && count == CountIn(events, k, hour) % M32
    && (forall e :: e in events && e % HOURS == k ==> e <= hour)
    && (hour == 0 || (hour in events && hour % HOURS == k))
  }

  /** Events of bucket k in hour `hour`. */
  function CountIn(events: seq<nat>, k: nat, hour: nat): nat {
    if events == [] then 0
    else
      var e := events[|events| - 1];
      CountIn(events[..|events| - 1], k, hour) + if e == hour && e % HOURS == k then 1 else 0
  }

  class Window {
    const counts: array<nat>
    const hours: array<nat>
    ghost var events: seq<nat>

    ghost predicate Valid()
      reads this, counts, hours
    {
      && counts.Length == hours.Length == HOURS && counts != hours
      && (forall k :: 0 <= k < HOURS ==> Tracks(events, k, hours[k], counts[k]))
    }

    constructor ()
      ensures Valid() && events == []
      ensures fresh(counts) && fresh(hours)
    {
      counts := new nat[HOURS](_ => 0);
      hours := new nat[HOURS](_ => 0);
      events := [];
    }

    /** One blocked query at wall-clock hour `hour`. */
    method Record(hour: nat)
      requires Valid()
      requires forall e :: e in events ==> e <= hour
      modifies this, counts, hours
      ensures Valid() && events == old(events) + [hour]
    {
      var idx := hour % HOURS;
      ghost var h, c := hours[idx], counts[idx];
      if hours[idx] != hour {
        hours[idx] := hour;
        counts[idx] := 0;
      }
      counts[idx] := (counts[idx] + 1) % M32;
      forall k | 0 <= k < HOURS
        ensures Tracks(events + [hour], k, hours[k], counts[k])
      {
        TracksOneMore(events, hour, k, old(hours[k]), old(counts[k]));
      }
      events := events + [hour];
    }

    /** blocked_last_24h: exactly the events of the last 24 hours, modulo the 32-bit counter. */
    method BlockedLast24h(now: nat) returns (total: nat)
      requires Valid()
      requires forall e :: e in events ==> e <= now
      ensures total == CountWindow(events, now) % M32
    {
      total := 0;
      AllBuckets(events, now);
      for i := 0 to HOURS
        invariant total == CountBuckets(events, now, i) % M32
      {
        OneBucket(events, now, i, hours[i], counts[i]);
        AddModulo(CountBuckets(events, now, i), counts[i]);
        if hours[i] > now - HOURS {
          total := (total + counts[i]) % M32;
        }
      }
    }
  }

  lemma AddModulo(a: nat, b: nat)
    ensures (a % M32 + b) % M32 == (a + b) % M32
  {
  }

  lemma {:induction false} CountInNewHour(events: seq<nat>, k: nat, hour: nat)
    requires hour !in events
    ensures CountIn(events, k, hour) == 0
  {
    if events != [] {
      assert events[|events| - 1] in events;
      CountInNewHour(events[..|events| - 1], k, hour);
    }
  }

  lemma TracksOneMore(events: seq<nat>, now: nat, k: nat, hour: nat, count: nat)
    requires k < HOURS && Tracks(events, k, hour, count)
    requires forall e :: e in events ==> e <= now
    ensures now % HOURS != k ==> Tracks(events + [now], k, hour, count)
    ensures now % HOURS == k ==>
              Tracks(events + [now], k, now, ((if hour != now then 0 else count) + 1) % M32)
  {
    var longer := events + [now];
    assert longer[..|events|] == events;
    if now % HOURS == k && hour != now {
      assert now !in events;
      CountInNewHour(events, k, now);
    }
  }

  /** A clock that never runs backwards leaves one hour of the window per bucket: the
      bucket contributes all its events of the window, or it has none. */
  lemma OneBucket(events: seq<nat>, now: nat, k: nat, hour: nat, count: nat)
    requires k < HOURS && Tracks(events, k, hour, count)
    requires forall e :: e in events ==> e <= now
    ensures CountBuckets(events, now, k + 1) % M32 ==
            (CountBuckets(events, now, k) + if now < hour + HOURS then count else 0) % M32
  {
    BucketShare(events, now, k, hour);
  }

  lemma {:induction false} BucketShare(events: seq<nat>, now: nat, k: nat, hour: nat)
    requires k < HOURS && hour <= now && (hour == 0 || hour % HOURS == k)
    requires forall e :: e in events ==> e <= now
    requires forall e :: e in events && e % HOURS == k ==> e <= hour
    ensures CountBuckets(events, now, k + 1) ==
            CountBuckets(events, now, k) + if now < hour + HOURS then CountIn(events, k, hour) else 0
  {
    if events != [] {
      var init, e := events[..|events| - 1], events[|events| - 1];
      assert e in events;
      assert forall x :: x in init ==> x in events;
      BucketShare(init, now, k, hour);
      if e % HOURS == k && now < e + HOURS {
        assert e == hour;
      }
    }
  }
}
