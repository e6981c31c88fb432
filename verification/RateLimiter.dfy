/** A sliding window over admitted calls, kept under a mutex and pruned in place. */
module RateLimiter {
  import opened Prelude

  type Time = int

  /** Successive readings of the clock, one for every time the code asks for the time. */
  type Clock = nat -> Time

  ghost predicate Steady(clock: Clock) {
    forall m: nat, n: nat :: m <= n ==> clock(m) <= clock(n)
  }

  ghost predicate Sorted(xs: seq<Time>) {
    forall i, j :: 0 <= i < j < |xs| ==> xs[i] <= xs[j]
  }

  /** What pruning keeps: each stored time is held against a reading of its own. */
  function Pruned(xs: seq<Time>, interval: Time, clock: Clock, from: nat): (kept: seq<Time>)
    ensures |kept| <= |xs|
  {
    if xs == [] then []
    else
      var n := |xs| - 1;
      var before := Pruned(xs[..n], interval, clock, from);
      if clock(from + n) - xs[n] > interval then before else before + [xs[n]]
  }

  /** How many are at or after an instant. */
  function Since(xs: seq<Time>, from: Time): nat {
    if xs == [] then 0 else Since(xs[..|xs| - 1], from) + if from <= xs[|xs| - 1] then 1 else 0
  }

  /** How many fall in the closed interval of that length. */
  function Within(xs: seq<Time>, from: Time, length: Time): nat {
    if xs == [] then 0
    else Within(xs[..|xs| - 1], from, length) + if from <= xs[|xs| - 1] <= from + length then 1 else 0
  }

  /** No closed interval of that length holds more admitted calls than the limit. */
  ghost predicate WithinLimit(admitted: seq<Time>, limit: nat, interval: Time) {
    forall from :: Within(admitted, from, interval) <= limit
  }

  /** The stored times are all that is left of the last interval. */
  ghost predicate Remembers(requests: seq<Time>, admitted: seq<Time>, interval: Time, now: Time) {
    forall from :: now - interval <= from ==> Since(admitted, from) == Since(requests, from)
  }

  class Middleware {
    const limit: nat
    const interval: Time
    const clock: Clock
    var requests: seq<Time>
    var asked: nat
    ghost var admitted: seq<Time>
    ghost var now: Time

    ghost predicate Valid()
      reads this
    {
      && limit >= 1 && interval >= 0 && Steady(clock) && now <= clock(asked)
      && Sorted(requests) && |requests| <= limit
      && (forall i :: 0 <= i < |requests| ==> requests[i] <= now)
      && Sorted(admitted) && (forall i :: 0 <= i < |admitted| ==> admitted[i] <= now)
      && Remembers(requests, admitted, interval, now)
      && WithinLimit(admitted, limit, interval)
    }

    constructor (limit: nat, interval: Time, clock: Clock)
      requires limit >= 1 && interval >= 0 && Steady(clock)
      ensures Valid() && admitted == [] && requests == []
      ensures this.limit == limit && this.interval == interval && this.clock == clock
    {
      this.limit, this.interval, this.clock := limit, interval, clock;
      requests, asked, admitted, now := [], 0, [], clock(0);
    }

    method CleanOldRequests()
      requires Valid()
      modifies this`requests, this`asked, this`now
      ensures Valid() && requests == Pruned(old(requests), interval, clock, old(asked))
      ensures asked == old(asked) + |old(requests)|
    {
      var stored, kept := requests, [];
      ghost var first := asked;
      for i := 0 to |stored|
        invariant asked == first + i
        invariant kept == Pruned(stored[..i], interval, clock, first)
      {
        assert stored[..i + 1][..i] == stored[..i];
        if !(clock(asked) - stored[i] > interval) {
          kept := kept + [stored[i]];
        }
        asked := asked + 1;
      }
      assert stored[..|stored|] == stored;
      PrunedForgetsOnlyOld(stored, admitted, interval, clock, first, old(now));
      forall i | 0 <= i < |kept|
        ensures kept[i] <= old(now)
      {
        assert kept[i] in kept;
      }
      requests, now := kept, clock(asked);
    }

    /** The synchronized block: admits the call now, or says how long to sleep before asking again. */
    method Visit() returns (sleep: Option<Time>)
      requires Valid()
      modifies this
      ensures Valid()
      ensures var kept := Pruned(old(requests), interval, clock, old(asked));
              var at := clock(old(asked) + |old(requests)|);
              if |kept| < limit then sleep == None && requests == kept + [at] && admitted == old(admitted) + [at]
              else sleep == Some(interval - (at - kept[0])) && requests == kept && admitted == old(admitted)
    {
      CleanOldRequests();
      var time := clock(asked);
      asked := asked + 1;
      if |requests| < limit {
        AdmitKeepsLimit(requests, admitted, limit, interval, time);
        requests := requests + [time];
        admitted := admitted + [time];
        sleep := None;
      } else {
        sleep := Some(interval - (time - requests[0]));
      }
      now := time;
    }
  }

  // ---- why the window holds ------------------------------------------------------------------------

  lemma {:induction false} PrunedIsSorted(xs: seq<Time>, interval: Time, clock: Clock, from: nat)
    requires Sorted(xs)
    ensures var kept := Pruned(xs, interval, clock, from); Sorted(kept) && forall x :: x in kept ==> x in xs
  {
    if xs != [] {
      var n := |xs| - 1;
      PrunedIsSorted(xs[..n], interval, clock, from);
      var before := Pruned(xs[..n], interval, clock, from);
      forall i | 0 <= i < |before|
        ensures before[i] in xs && before[i] <= xs[n]
      {
        assert before[i] in before;
      }
    }
  }

  /** Only what every later window has left behind is dropped. */
  lemma {:induction false} PrunedKeeps(xs: seq<Time>, interval: Time, clock: Clock, from: nat, late: nat, since: Time)
    requires Steady(clock) && from + |xs| <= late + 1 && clock(late) - interval <= since
    ensures Since(Pruned(xs, interval, clock, from), since) == Since(xs, since)
  {
    if xs != [] {
      var n := |xs| - 1;
      PrunedKeeps(xs[..n], interval, clock, from, late, since);
      var before := Pruned(xs[..n], interval, clock, from);
      assert (before + [xs[n]])[..|before|] == before;
      assert clock(from + n) <= clock(late);
    }
  }

  lemma PrunedForgetsOnlyOld(xs: seq<Time>, admitted: seq<Time>, interval: Time, clock: Clock, from: nat, now: Time)
    requires Steady(clock) && now <= clock(from) && Sorted(xs) && Remembers(xs, admitted, interval, now)
    ensures var kept := Pruned(xs, interval, clock, from);
            && Sorted(kept) && (forall x :: x in kept ==> x in xs)
            && Remembers(kept, admitted, interval, clock(from + |xs|))
  {
    PrunedIsSorted(xs, interval, clock, from);
    assert clock(from) <= clock(from + |xs|);
    forall since | clock(from + |xs|) - interval <= since
      ensures Since(Pruned(xs, interval, clock, from), since) == Since(admitted, since)
    {
      PrunedKeeps(xs, interval, clock, from, from + |xs|, since);
    }
  }

  lemma {:induction false} SinceAtMost(xs: seq<Time>, from: Time)
    ensures Since(xs, from) <= |xs|
  {
    if xs != [] {
      SinceAtMost(xs[..|xs| - 1], from);
    }
  }

  lemma {:induction false} WithinAtMostSince(xs: seq<Time>, from: Time, length: Time)
    ensures Within(xs, from, length) <= Since(xs, from)
  {
    if xs != [] {
      WithinAtMostSince(xs[..|xs| - 1], from, length);
    }
  }

  /** One more call fits every window it falls in, because all the calls in that window are still stored. */
  lemma AdmitKeepsLimit(requests: seq<Time>, admitted: seq<Time>, limit: nat, interval: Time, time: Time)
    requires |requests| < limit && Remembers(requests, admitted, interval, time)
    requires WithinLimit(admitted, limit, interval)
    ensures WithinLimit(admitted + [time], limit, interval)
    ensures Remembers(requests + [time], admitted + [time], interval, time)
  {
    assert (admitted + [time])[..|admitted|] == admitted;
    assert (requests + [time])[..|requests|] == requests;
    forall from
      ensures Within(admitted + [time], from, interval) <= limit
    {
      if from <= time <= from + interval {
        WithinAtMostSince(admitted, from, interval);
        SinceAtMost(requests, from);
      }
    }
  }

  // ---- how long to sleep ---------------------------------------------------------------------------

  lemma {:induction false} PrunedAll(xs: seq<Time>, interval: Time, clock: Clock, from: nat)
    ensures (forall i :: 0 <= i < |xs| ==> clock(from + i) - xs[i] <= interval) ==> Pruned(xs, interval, clock, from) == xs
    ensures xs != [] && clock(from) - xs[0] > interval ==> |Pruned(xs, interval, clock, from)| < |xs|
  {
    if xs != [] {
      PrunedAll(xs[..|xs| - 1], interval, clock, from);
    }
  }

  /**
   A full window whose oldest call is `stored[0]`: asked again while that call is within the interval, nothing
   has left it; asked once the call is past the interval, there is room.
   */
  lemma SleepIsExact(stored: seq<Time>, limit: nat, interval: Time, clock: Clock, from: nat)
    requires Steady(clock) && Sorted(stored) && |stored| == limit >= 1
    ensures clock(from + limit - 1) <= stored[0] + interval ==> Pruned(stored, interval, clock, from) == stored
    ensures clock(from) > stored[0] + interval ==> |Pruned(stored, interval, clock, from)| < limit
  {
    PrunedAll(stored, interval, clock, from);
    if clock(from + limit - 1) <= stored[0] + interval {
      forall i | 0 <= i < limit
        ensures clock(from + i) - stored[i] <= interval
      {
      }
    }
  }
}
