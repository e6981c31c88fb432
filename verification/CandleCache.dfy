/** The stored series of closed candles, extended from its last bar and rebuilt when the venue rewrote its history. */
module CandleCache {
  import opened Prelude

  /** A candle: when it opens, its four prices and its volume. */
  datatype Candle = Candle(open: int, o: real, h: real, l: real, c: real, v: real)

  datatype Response = Failure | Success(candles: seq<Candle>)

  const RESTATEMENT_TOLERANCE: real := 0.001

  function Closed(candles: seq<Candle>, timeframe: int, now: int): (closed: seq<Candle>)
    ensures forall x :: x in closed <==> x in candles && x.open + timeframe <= now
  {
    Filter(candles, (x: Candle) => x.open + timeframe <= now)
  }

  function After(candles: seq<Candle>, open: int): (later: seq<Candle>)
    ensures forall x :: x in later <==> x in candles && x.open > open
  {
    Filter(candles, (x: Candle) => x.open > open)
  }

  /** The first candle that opens when asked, if any. */
  function Find(candles: seq<Candle>, open: int): (found: Option<Candle>)
    ensures match found
            case None => forall x :: x in candles ==> x.open != open
            case Some(x) => x in candles && x.open == open
  {
    if candles == [] then None
    else if candles[0].open == open then Some(candles[0])
    else
      assert forall x :: x in candles <==> x == candles[0] || x in candles[1..];
      Find(candles[1..], open)
  }

  function Abs(x: real): real {
    if x < 0.0 then -x else x
  }

  /** Whether the venue's own reading of the last stored bar says its history was rewritten. */
  predicate RestatedSince(last: Candle, closed: seq<Candle>, restated: bool) {
    match Find(closed, last.open)
    case None => restated
    case Some(overlap) => last.o != 0.0 && overlap.o != 0.0 && Abs((overlap.o - last.o) / last.o) > RESTATEMENT_TOLERANCE
  }

  ghost predicate Ascending(candles: seq<Candle>) {
    forall i, j :: 0 <= i < j < |candles| ==> candles[i].open < candles[j].open
  }

  predicate HasOpen(candles: seq<Candle>, open: int) {
    exists i :: 0 <= i < |candles| && candles[i].open == open
  }

  /** Puts a candle in its place, unless one that opens then is already there. */
  function Insert(candles: seq<Candle>, x: Candle): (r: seq<Candle>)
    requires Ascending(candles)
    ensures Ascending(r)
    ensures forall y :: y in r <==> y in candles || (y == x && !HasOpen(candles, x.open))
    ensures forall open :: HasOpen(r, open) <==> HasOpen(candles, open) || open == x.open
  {
    if candles == [] then
      assert [x][0].open == x.open;
      [x]
    else
      var n := |candles| - 1;
      var last := candles[n];
      HasOpenLast(candles);
      if last.open < x.open then
        assert (candles + [x])[..|candles|] == candles;
        HasOpenLast(candles + [x]);
        assert forall i :: 0 <= i < |candles| ==> candles[i].open <= last.open;
        candles + [x]
      else if last.open == x.open then candles
      else
        var r := Insert(candles[..n], x);
        assert candles == candles[..n] + [last];
        assert forall i :: 0 <= i < |r| ==> r[i] in r && r[i].open < last.open;
        assert (r + [last])[..|r|] == r;
        HasOpenLast(r + [last]);
        r + [last]
  }

  lemma HasOpenLast(candles: seq<Candle>)
    requires candles != []
    ensures forall open :: HasOpen(candles, open) <==>
              HasOpen(candles[..|candles| - 1], open) || open == candles[|candles| - 1].open
  {
    var n := |candles| - 1;
    forall open
      ensures HasOpen(candles, open) <==> HasOpen(candles[..n], open) || open == candles[n].open
    {
      if HasOpen(candles[..n], open) {
        var i :| 0 <= i < n && candles[..n][i].open == open;
        assert candles[i].open == open;
      }
      if HasOpen(candles, open) && open != candles[n].open {
        var i :| 0 <= i < |candles| && candles[i].open == open;
        assert candles[..n][i].open == open;
      }
    }
  }

  /** One candle for each opening time, the first given, in order of opening. */
  function Tidy(candles: seq<Candle>): (r: seq<Candle>)
    ensures Ascending(r)
    ensures forall open :: HasOpen(r, open) <==> HasOpen(candles, open)
    ensures forall y :: y in r ==> y in candles
  {
    if candles == [] then []
    else
      var n := |candles| - 1;
      assert forall y :: y in candles <==> y in candles[..n] || y == candles[n];
      assert forall open :: HasOpen(candles, open) <==> HasOpen(candles[..n], open) || open == candles[n].open by {
        HasOpenLast(candles);
      }
      Insert(Tidy(candles[..n]), candles[n])
  }

  lemma {:induction false} FindBefore(candles: seq<Candle>, x: Candle, open: int)
    ensures Find(candles + [x], open)
         == if HasOpen(candles, open) then Find(candles, open) else if x.open == open then Some(x) else None
  {
    if candles == [] {
      assert [x][1..] == [];
    } else {
      assert (candles + [x])[1..] == candles[1..] + [x];
      FindBefore(candles[1..], x, open);
      assert HasOpen(candles, open) <==> candles[0].open == open || HasOpen(candles[1..], open) by {
        if HasOpen(candles[1..], open) {
          var i :| 0 <= i < |candles| - 1 && candles[1..][i].open == open;
          assert candles[i + 1].open == open;
        }
        if HasOpen(candles, open) && candles[0].open != open {
          var i :| 0 <= i < |candles| && candles[i].open == open;
          assert candles[1..][i - 1].open == open;
        }
      }
    }
  }

  /** What is kept for an opening time is the first candle given for it. */
  lemma {:induction false} TidyKeepsFirst(candles: seq<Candle>, y: Candle)
    requires y in Tidy(candles)
    ensures Find(candles, y.open) == Some(y)
  {
    var n := |candles| - 1;
    FindBefore(candles[..n], candles[n], y.open);
    assert candles[..n] + [candles[n]] == candles;
    if y in Tidy(candles[..n]) {
      TidyKeepsFirst(candles[..n], y);
    }
  }

  // ---- one fetch, as a function --------------------------------------------------------------------

  /** What a fetch answers, what is stored after it, and how often it called the venue. */
  datatype Fetched = Fetched(result: Response, stored: Option<seq<Candle>>, calls: nat)

  /** Which series: from when, how long its candles last, and whether it is the venue's restated history. */
  datatype Series = Series(since: int, timeframe: int, restated: bool)

  function StoreSeries(stored: Option<seq<Candle>>, candles: seq<Candle>, calls: nat): Fetched {
    var tidy := Tidy(candles);
    Fetched(Success(tidy), if tidy == [] then stored else Some(tidy), calls)
  }

  function Rebuild(s: Series, stored: Option<seq<Candle>>, now: int, whole: Response): Fetched {
    match whole
    case Failure => Fetched(Failure, stored, 2)
    case Success(candles) =>
      var closed := Closed(candles, s.timeframe, now);
      if closed == [] then Fetched(Success([]), stored, 2) else StoreSeries(stored, closed, 2)
  }

  /** `tail` is the venue's answer from the last stored candle, or from the start; `whole` its answer to a rebuild. */
  function Refresh(s: Series, stored: Option<seq<Candle>>, existing: seq<Candle>, now: int, tail: Response,
                   whole: Response): Fetched {
    match tail
    case Failure => Fetched(Failure, stored, 1)
    case Success(candles) =>
      var closed := Closed(candles, s.timeframe, now);
      if existing == [] then StoreSeries(stored, closed, 1)
      else
        var last := existing[|existing| - 1];
        if RestatedSince(last, closed, s.restated) then Rebuild(s, stored, now, whole)
        else StoreSeries(stored, existing + After(closed, last.open), 1)
  }

  function IsDue(s: Series, existing: seq<Candle>, now: int): bool
    requires existing != []
  {
    now >= existing[|existing| - 1].open + 2 * s.timeframe
  }

  function Fetch(s: Series, stored: Option<seq<Candle>>, now: int, tail: Response, whole: Response): Fetched {
    if stored.None? || stored.value == [] then Refresh(s, stored, [], now, tail, whole)
    else if !IsDue(s, stored.value, now) then Fetched(Success(stored.value), stored, 0)
    else Refresh(s, stored, stored.value, now, tail, whole)
  }

  /** From when a fetch asks the venue first. */
  function StartOf(s: Series, stored: Option<seq<Candle>>): int {
    if stored.None? || stored.value == [] then s.since else stored.value[|stored.value| - 1].open
  }

  // ---- the cache object ----------------------------------------------------------------------------

  class CandleSeriesCache {
    var stored: Option<seq<Candle>>
    var calls: nat
    const series: Series

    constructor (series: Series)
      ensures this.series == series && stored == None && calls == 0
    {
      this.series, stored, calls := series, None, 0;
    }

    method Evict()
      modifies this`stored
      ensures stored == None
    {
      stored := None;
    }

    /** `venue(k, start)` is the venue's answer to the fetch's k-th call. */
    method FetchSeries(now: int, venue: (nat, int) -> Response) returns (result: Response)
      modifies this
      ensures Fetched(result, stored, calls)
           == Fetch(series, old(stored), now, venue(0, StartOf(series, old(stored))), venue(1, series.since))
    {
      calls := 0;
      if stored.None? || stored.value == [] {
        result := RefreshSeries([], now, venue);
        return;
      }
      if now < stored.value[|stored.value| - 1].open + 2 * series.timeframe {
        return Success(stored.value);
      }
      result := RefreshSeries(stored.value, now, venue);
    }

    method RefreshSeries(existing: seq<Candle>, now: int, venue: (nat, int) -> Response) returns (result: Response)
      requires calls == 0
      modifies this
      ensures Fetched(result, stored, calls)
           == Refresh(series, old(stored), existing, now,
                      venue(0, if existing == [] then series.since else existing[|existing| - 1].open), venue(1, series.since))
    {
      var start := if existing == [] then series.since else existing[|existing| - 1].open;
      calls := calls + 1;
      var answer := venue(0, start);
      if answer.Failure? {
        return Failure;
      }
      var closed := Closed(answer.candles, series.timeframe, now);
      if existing == [] {
        result := Write(closed);
      } else if RestatedSince(existing[|existing| - 1], closed, series.restated) {
        result := RebuildSeries(now, venue);
      } else {
        result := Write(existing + After(closed, start));
      }
    }

    method RebuildSeries(now: int, venue: (nat, int) -> Response) returns (result: Response)
      requires calls == 1
      modifies this
      ensures Fetched(result, stored, calls) == Rebuild(series, old(stored), now, venue(1, series.since))
    {
      calls := calls + 1;
      var answer := venue(1, series.since);
      if answer.Failure? {
        return Failure;
      }
      var closed := Closed(answer.candles, series.timeframe, now);
      if closed == [] {
        return Success([]);
      }
      result := Write(closed);
    }

    method Write(candles: seq<Candle>) returns (result: Response)
      modifies this`stored
      ensures Fetched(result, stored, calls) == StoreSeries(old(stored), candles, calls)
    {
      var tidy := Tidy(candles);
      if tidy != [] {
        stored := Some(tidy);
      }
      result := Success(tidy);
    }
  }
}
