/** When a fetch of candles asks the venue, and how often, told in the fields of the candles. */
module CandleInFields {
  import opened Prelude
  import opened CandleCache

  predicate Holds(stored: Option<seq<Candle>>) {
    stored.Some? && |stored.value| > 0
  }

  function Last(stored: Option<seq<Candle>>): Candle
    requires Holds(stored)
  {
    stored.value[|stored.value| - 1]
  }

  /** A closed candle of the answer that opens when the last stored one does. */
  predicate Overlaps(s: Series, last: Candle, now: int, answer: seq<Candle>, x: Candle) {
    x in answer && x.open + s.timeframe <= now && x.open == last.open
  }

  /** The overlap opens more than a tenth of a percent from what was stored. */
  predicate Rewritten(last: Candle, x: Candle) {
    && last.o != 0.0 && x.o != 0.0
    && var size := if last.o < 0.0 then -last.o else last.o;
       x.o - last.o > 0.001 * size || last.o - x.o > 0.001 * size
  }

  /** Nothing is asked until the candle after the last stored one has closed. */
  lemma NotAskedBefore(s: Series, stored: Option<seq<Candle>>, now: int, tail: Response, whole: Response)
    ensures var f := Fetch(s, stored, now, tail, whole);
            && (f.calls == 0 <==> Holds(stored) && now < Last(stored).open + 2 * s.timeframe)
            && (f.calls == 0 ==> f.result == Success(stored.value) && f.stored == stored)
  {
  }

  /** A first answer that fails ends the fetch with what was stored as it was. */
  lemma FailedFirst(s: Series, stored: Option<seq<Candle>>, now: int, whole: Response)
    requires !(Holds(stored) && now < Last(stored).open + 2 * s.timeframe)
    ensures Fetch(s, stored, now, Failure, whole) == Fetched(Failure, stored, 1)
  {
  }

  /** With nothing stored one answer is enough, and an empty one is not stored. */
  lemma FirstAnswer(s: Series, stored: Option<seq<Candle>>, now: int, answer: seq<Candle>, whole: Response)
    requires !Holds(stored)
    ensures var f := Fetch(s, stored, now, Success(answer), whole);
            && f.calls == 1 && f.result.Success?
            && (if exists x :: x in answer && x.open + s.timeframe <= now then f.stored == Some(f.result.candles)
                else f.result.candles == [] && f.stored == stored)
  {
    var closed := Closed(answer, s.timeframe, now);
    if x :| x in answer && x.open + s.timeframe <= now {
      assert x in closed;
      var i :| 0 <= i < |closed| && closed[i] == x;
      assert HasOpen(closed, x.open) && HasOpen(Tidy(closed), x.open);
    } else {
      assert closed == [] by {
        NoneIsEmpty(closed);
      }
    }
  }

  lemma NoneIsEmpty(closed: seq<Candle>)
    ensures closed == [] || exists x :: x in closed
  {
    if closed != [] {
      assert closed[0] in closed;
    }
  }

  lemma CallsOf(s: Series, stored: Option<seq<Candle>>, now: int, answer: seq<Candle>, whole: Response)
    requires Holds(stored) && now >= Last(stored).open + 2 * s.timeframe
    ensures Fetch(s, stored, now, Success(answer), whole).calls
         == if RestatedSince(Last(stored), Closed(answer, s.timeframe, now), s.restated) then 2 else 1
  {
    hide RestatedSince, Closed, Tidy;
  }

  lemma OverlapsAreClosed(s: Series, last: Candle, now: int, answer: seq<Candle>)
    ensures forall y :: Overlaps(s, last, now, answer, y) <==> y in Closed(answer, s.timeframe, now) && y.open == last.open
  {
  }

  /** The whole history is asked for again exactly when the candle that was stored last was rewritten. */
  lemma AskedAgainExactlyWhen(s: Series, stored: Option<seq<Candle>>, now: int, answer: seq<Candle>, whole: Response,
                              x: Candle)
    requires Holds(stored) && now >= Last(stored).open + 2 * s.timeframe
    requires Overlaps(s, Last(stored), now, answer, x)
    requires forall y :: Overlaps(s, Last(stored), now, answer, y) ==> y == x
    ensures Fetch(s, stored, now, Success(answer), whole).calls == if Rewritten(Last(stored), x) then 2 else 1
  {
    hide Overlaps, Rewritten, Closed, Tidy, Abs, Fetch, Find;
    CallsOf(s, stored, now, answer, whole);
    OverlapsAreClosed(s, Last(stored), now, answer);
    assert Find(Closed(answer, s.timeframe, now), Last(stored).open) == Some(x);
    RatioIsRewritten(Last(stored), x);
  }

  /** An answer without that candle says so only of a venue that restates its history. */
  lemma AskedAgainWithoutOverlap(s: Series, stored: Option<seq<Candle>>, now: int, answer: seq<Candle>, whole: Response)
    requires Holds(stored) && now >= Last(stored).open + 2 * s.timeframe
    requires forall y :: !Overlaps(s, Last(stored), now, answer, y)
    ensures Fetch(s, stored, now, Success(answer), whole).calls == if s.restated then 2 else 1
  {
    hide Overlaps, Closed, Tidy, Abs, Fetch, Find;
    CallsOf(s, stored, now, answer, whole);
    OverlapsAreClosed(s, Last(stored), now, answer);
    assert Find(Closed(answer, s.timeframe, now), Last(stored).open) == None;
  }

  lemma SignOf(t: real, m: real)
    requires m > 0.0
    ensures t * m > 0.0 <==> t > 0.0
  {
  }

  lemma BeyondUp(r: real, d: real, m: real)
    requires m > 0.0 && r * m == d
    ensures r > 0.001 <==> d > 0.001 * m
    ensures -r > 0.001 <==> -d > 0.001 * m
  {
    SignOf(r - 0.001, m);
    SignOf(-r - 0.001, m);
    assert (r - 0.001) * m == r * m - 0.001 * m;
    assert (-r - 0.001) * m == -(r * m) - 0.001 * m;
  }

  lemma Beyond(o: real, d: real, m: real)
    requires o != 0.0 && m == (if o < 0.0 then -o else o)
    ensures Abs(d / o) > 0.001 <==> d > 0.001 * m || -d > 0.001 * m
  {
    var r := d / o;
    assert r * o == d;
    if o > 0.0 {
      BeyondUp(r, d, m);
    } else {
      assert (-r) * m == r * o;
      BeyondUp(-r, d, m);
    }
  }

  lemma RatioIsRewritten(last: Candle, x: Candle)
    ensures last.o != 0.0 && x.o != 0.0 && Abs((x.o - last.o) / last.o) > RESTATEMENT_TOLERANCE <==> Rewritten(last, x)
  {
    if last.o != 0.0 {
      Beyond(last.o, x.o - last.o, if last.o < 0.0 then -last.o else last.o);
      hide Abs;
    }
  }

  /** A rebuild that fails, or finds nothing closed, leaves what was stored. */
  lemma FailedRebuild(s: Series, stored: Option<seq<Candle>>, now: int, tail: Response, whole: Response)
    requires Fetch(s, stored, now, tail, whole).calls == 2
    ensures whole.Failure? ==> Fetch(s, stored, now, tail, whole) == Fetched(Failure, stored, 2)
    ensures whole.Success? && (forall x :: x in whole.candles ==> x.open + s.timeframe > now) ==>
              Fetch(s, stored, now, tail, whole) == Fetched(Success([]), stored, 2)
  {
    if whole.Success? && forall x :: x in whole.candles ==> x.open + s.timeframe > now {
      NoneIsEmpty(Closed(whole.candles, s.timeframe, now));
    }
  }
}
