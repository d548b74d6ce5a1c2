/** The leaky bucket rate limiter: buckets, ticks, and what any stretch of time can let through. */
module Ratelimiter {
  datatype Event<K> = Tick | Request(key: K)

  function Tokens<K(==)>(buckets: map<K, int>, key: K): int {
    if key in buckets then buckets[key] else 0
  }

  /** One off every bucket; a bucket that would reach zero goes. */
  function Drained<K(==)>(buckets: map<K, int>): map<K, int> {
    map k | k in buckets && buckets[k] > 1 :: buckets[k] - 1
  }

  function Step<K(==)>(burst: int, buckets: map<K, int>, e: Event<K>): map<K, int> {
    match e
    case Tick => Drained(buckets)
    case Request(key) =>
      if Tokens(buckets, key) >= burst then buckets else buckets[key := Tokens(buckets, key) + 1]
  }

  function Buckets<K(==)>(burst: int, events: seq<Event<K>>): map<K, int> {
    if events == [] then map[] else Step(burst, Buckets(burst, events[..|events| - 1]), events[|events| - 1])
  }

  class Ratelimiter<K(==)> {
    const burst: int
    var buckets: map<K, int>
    ghost var events: seq<Event<K>>

    ghost predicate Valid() reads this {
      buckets == Buckets(burst, events)
    }

    constructor (burst: int)
      ensures Valid() && this.burst == burst && events == []
    {
      this.burst, buckets, events := burst, map[], [];
    }

    method PeriodicCall()
      requires Valid()
      modifies this
      ensures Valid() && events == old(events) + [Tick]
    {
      buckets := map k | k in buckets && buckets[k] > 1 :: buckets[k] - 1;
      events := events + [Tick];
    }

    /** False where the limit is exceeded. */
    method Ratelimit(key: K) returns (accepted: bool)
      requires Valid()
      modifies this
      ensures Valid() && events == old(events) + [Request(key)]
      ensures accepted == Accepted(burst, events, |events| - 1, key)
    {
      var current := Tokens(buckets, key);
      events := events + [Request(key)];
      assert events[..|events| - 1] == old(events);
      accepted := current < burst;
      if accepted {
        buckets := buckets[key := current + 1];
      }
    }
  }

  // ------------------------------------------------------------ whole runs

  /** The i-th event is a request of the key and is let through. */
  predicate Accepted<K(==)>(burst: int, events: seq<Event<K>>, i: nat, key: K)
    requires i < |events|
  {
    events[i] == Request(key) && Tokens(Buckets(burst, events[..i]), key) < burst
  }

  function CountAccepted<K(==)>(burst: int, events: seq<Event<K>>, key: K, lo: nat, hi: nat): nat
    requires lo <= hi <= |events|
    decreases hi
  {
    if lo == hi then 0
    else CountAccepted(burst, events, key, lo, hi - 1) + if Accepted(burst, events, hi - 1, key) then 1 else 0
  }

  function CountTicks<K(==)>(events: seq<Event<K>>, lo: nat, hi: nat): nat
    requires lo <= hi <= |events|
    decreases hi
  {
    if lo == hi then 0 else CountTicks(events, lo, hi - 1) + if events[hi - 1].Tick? then 1 else 0
  }

  /** Accepted requests minus ticks over a stretch. */
  function Net<K(==)>(burst: int, events: seq<Event<K>>, key: K, lo: nat, hi: nat): int
    requires lo <= hi <= |events|
  {
    CountAccepted(burst, events, key, lo, hi) - CountTicks(events, lo, hi)
  }

  lemma BucketsStep<K>(burst: int, events: seq<Event<K>>, n: nat)
    requires n < |events|
    ensures Buckets(burst, events[..n + 1]) == Step(burst, Buckets(burst, events[..n]), events[n])
  {
    assert events[..n + 1][..n] == events[..n];
  }

  lemma {:induction false} BucketsPositive<K>(burst: int, events: seq<Event<K>>)
    ensures forall k | k in Buckets(burst, events) :: 1 <= Buckets(burst, events)[k] <= burst
  {
    if events != [] { BucketsPositive(burst, events[..|events| - 1]); }
  }

  /** A key's counter is the largest surplus of accepted requests over ticks among all stretches that end now,
      the empty stretch included. */
  lemma {:induction false} CounterIsLargestSurplus<K>(burst: int, events: seq<Event<K>>, key: K, n: nat)
    requires n <= |events|
    ensures forall lo | 0 <= lo <= n :: Net(burst, events, key, lo, n) <= Tokens(Buckets(burst, events[..n]), key)
    ensures exists lo | 0 <= lo <= n :: Net(burst, events, key, lo, n) == Tokens(Buckets(burst, events[..n]), key)
  {
    if n == 0 {
      assert Net(burst, events, key, 0, 0) == 0;
    } else {
      CounterIsLargestSurplus(burst, events, key, n - 1);
      BucketsStep(burst, events, n - 1);
      BucketsPositive(burst, events[..n - 1]);
      var before := Tokens(Buckets(burst, events[..n - 1]), key);
      var w :| 0 <= w <= n - 1 && Net(burst, events, key, w, n - 1) == before;
      assert Net(burst, events, key, n, n) == 0;
      var now := Tokens(Buckets(burst, events[..n]), key);
      var change := if events[n - 1].Tick? then -1 else if Accepted(burst, events, n - 1, key) then 1 else 0;
      forall lo | 0 <= lo < n
        ensures Net(burst, events, key, lo, n) == Net(burst, events, key, lo, n - 1) + change
      {
      }
      assert now == if before + change < 0 then 0 else before + change;
      if before + change < 0 {
        assert Net(burst, events, key, n, n) == now;
      } else {
        assert Net(burst, events, key, w, n) == now;
      }
    }
  }

  /** Any stretch with n ticks accepts at most burst + n requests of a key. */
  lemma StretchBounded<K>(burst: int, events: seq<Event<K>>, key: K, lo: nat, hi: nat)
    requires lo <= hi <= |events|
    ensures CountAccepted(burst, events, key, lo, hi) <= (if burst < 0 then 0 else burst) + CountTicks(events, lo, hi)
  {
    CounterIsLargestSurplus(burst, events, key, hi);
    BucketsPositive(burst, events[..hi]);
    assert Net(burst, events, key, lo, hi) <= Tokens(Buckets(burst, events[..hi]), key);
  }

  /** A request is accepted exactly when, over every stretch that ends just before it, the accepted requests of
      its key exceed the ticks by less than the burst. */
  lemma AcceptedIff<K>(burst: int, events: seq<Event<K>>, i: nat, key: K)
    requires i < |events| && events[i] == Request(key)
    ensures Accepted(burst, events, i, key) <==>
            forall lo | 0 <= lo <= i :: CountAccepted(burst, events, key, lo, i) < burst + CountTicks(events, lo, i)
  {
    CounterIsLargestSurplus(burst, events, key, i);
    var w :| 0 <= w <= i && Net(burst, events, key, w, i) == Tokens(Buckets(burst, events[..i]), key);
    if Accepted(burst, events, i, key) {
      forall lo | 0 <= lo <= i
        ensures CountAccepted(burst, events, key, lo, i) < burst + CountTicks(events, lo, i)
      {
        assert Net(burst, events, key, lo, i) < burst;
      }
    } else {
      assert !(CountAccepted(burst, events, key, w, i) < burst + CountTicks(events, w, i));
    }
  }

  function CountRequests<K(==)>(events: seq<Event<K>>, key: K, lo: nat, hi: nat): nat
    requires lo <= hi <= |events|
    decreases hi
  {
    if lo == hi then 0 else CountRequests(events, key, lo, hi - 1) + if events[hi - 1] == Request(key) then 1 else 0
  }

  lemma {:induction false} RequestsSplit<K>(events: seq<Event<K>>, key: K, lo: nat, hi: nat)
    requires lo <= hi <= |events|
    ensures CountRequests(events, key, lo, hi) <= CountRequests(events, key, 0, hi)
    decreases hi
  {
    if lo < hi { RequestsSplit(events, key, lo, hi - 1); }
  }

  lemma {:induction false} AcceptedAreRequests<K>(burst: int, events: seq<Event<K>>, key: K, lo: nat, hi: nat)
    requires lo <= hi <= |events|
    ensures CountAccepted(burst, events, key, lo, hi) <= CountRequests(events, key, lo, hi)
    decreases hi
  {
    if lo < hi { AcceptedAreRequests(burst, events, key, lo, hi - 1); }
  }

  /** The first `burst` requests of a key are all accepted, ticks or none, whatever other keys do. */
  lemma BurstIsAccepted<K>(burst: int, events: seq<Event<K>>, i: nat, key: K)
    requires i < |events| && events[i] == Request(key) && CountRequests(events, key, 0, i) < burst
    ensures Accepted(burst, events, i, key)
  {
    AcceptedIff(burst, events, i, key);
    forall lo | 0 <= lo <= i
      ensures CountAccepted(burst, events, key, lo, i) < burst + CountTicks(events, lo, i)
    {
      AcceptedAreRequests(burst, events, key, lo, i);
      RequestsSplit(events, key, lo, i);
    }
  }

  /** The ticks and the requests of one key. */
  function Only<K(==)>(events: seq<Event<K>>, key: K): seq<Event<K>> {
    if events == [] then []
    else
      var front, last := Only(events[..|events| - 1], key), events[|events| - 1];
      if last.Tick? || last.key == key then front + [last] else front
  }

  /** A key's counter, and with it the decision on its next request, does not depend on other keys' requests. */
  lemma {:induction false} KeysAreIndependent<K>(burst: int, events: seq<Event<K>>, key: K)
    ensures Tokens(Buckets(burst, events), key) == Tokens(Buckets(burst, Only(events, key)), key)
    ensures Accepted(burst, events + [Request(key)], |events|, key) <==>
            Accepted(burst, Only(events, key) + [Request(key)], |Only(events, key)|, key)
  {
    var alone := Only(events, key);
    if events != [] {
      var front, last := events[..|events| - 1], events[|events| - 1];
      KeysAreIndependent(burst, front, key);
      var aloneFront := Only(front, key);
      if last.Tick? || last.key == key {
        assert alone[..|alone| - 1] == aloneFront;
      }
    }
    assert (events + [Request(key)])[..|events|] == events;
    assert (alone + [Request(key)])[..|alone|] == alone;
  }
}
