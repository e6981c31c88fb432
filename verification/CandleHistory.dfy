/** The cached series against the venue's history: it agrees with a full fetch, and stands on a single basis. */
module CandleHistory {
  import opened Prelude
  import opened CandleCache

  // ---- the venue's history -------------------------------------------------------------------------

  /** Candles at least one timeframe apart, at positive prices. */
  ghost predicate History(raw: seq<Candle>, s: Series) {
    && s.timeframe > 0
    && (forall i :: 0 <= i < |raw| ==> raw[i].o > 0.0)
    && (forall i, j :: 0 <= i < j < |raw| ==> raw[i].open + s.timeframe <= raw[j].open)
  }

  /** The candle on another share basis: prices times `k`, volume divided by it. */
  function Scale(k: real, c: Candle): Candle
    requires k > 0.0
  {
    Candle(c.open, k * c.o, k * c.h, k * c.l, k * c.c, c.v / k)
  }

  /** A venue reads its start inclusively or exclusively. */
  predicate From(open: int, start: int, inclusive: bool) {
    if inclusive then start <= open else start < open
  }

  /** What the venue returns at `now`, on basis `k`: every candle that opened from the start on, in any order. */
  ghost predicate AnswerOf(raw: seq<Candle>, inclusive: bool, k: real, start: int, now: int, candles: seq<Candle>)
    requires k > 0.0
  {
    forall x :: x in candles <==>
      exists i :: 0 <= i < |raw| && From(raw[i].open, start, inclusive) && raw[i].open <= now && x == Scale(k, raw[i])
  }

  /** Every candle from the series' start that had closed by `t`, on basis `k`, in order. */
  ghost predicate IsSeries(raw: seq<Candle>, s: Series, inclusive: bool, t: int, k: real, candles: seq<Candle>)
    requires k > 0.0
  {
    && Ascending(candles)
    && forall x :: x in candles <==>
         exists i :: 0 <= i < |raw| && InSeries(raw[i], s, inclusive, t) && x == Scale(k, raw[i])
  }

  predicate InSeries(c: Candle, s: Series, inclusive: bool, t: int) {
    From(c.open, s.since, inclusive) && c.open + s.timeframe <= t
  }

  // ---- series --------------------------------------------------------------------------------------

  lemma {:induction false} SameSeries(a: seq<Candle>, b: seq<Candle>)
    requires Ascending(a) && Ascending(b) && forall x :: x in a <==> x in b
    ensures a == b
  {
    if a == [] {
      if b != [] {
        var x := SomeOf(b);
      }
    } else {
      assert a[0] in a && a[0] in b;
      var m, n := |a| - 1, |b| - 1;
      assert a[m] in a && b[n] in b;
      LastIsLatest(a, b[n]);
      LastIsLatest(b, a[m]);
      var j :| 0 <= j < |b| && b[j] == a[m];
      assert j == n;
      assert a[m] == b[n];
      forall x
        ensures x in a[..m] <==> x in b[..n]
      {
        Without(a, x);
        Without(b, x);
      }
      SameSeries(a[..m], b[..n]);
    }
  }

  lemma SomeOf(b: seq<Candle>) returns (x: Candle)
    requires b != []
    ensures x in b
  {
    x := b[0];
  }

  lemma LastIsLatest(a: seq<Candle>, x: Candle)
    requires Ascending(a) && x in a
    ensures x.open <= a[|a| - 1].open
  {
  }

  lemma Without(a: seq<Candle>, x: Candle)
    requires Ascending(a) && a != []
    ensures x in a[..|a| - 1] <==> x in a && x != a[|a| - 1]
  {
    var n := |a| - 1;
    if x in a && x != a[n] {
      var i :| 0 <= i < |a| && a[i] == x;
      assert a[..n][i] == x;
    }
    if x in a[..n] {
      var i :| 0 <= i < n && a[..n][i] == x;
      assert a[i] == x;
    }
  }

  lemma SeriesUnique(raw: seq<Candle>, s: Series, inclusive: bool, t: int, k: real, a: seq<Candle>, b: seq<Candle>)
    requires k > 0.0 && IsSeries(raw, s, inclusive, t, k, a) && IsSeries(raw, s, inclusive, t, k, b)
    ensures a == b
  {
    forall x
      ensures x in a <==> x in b
    {
      assert x in a <==> exists i :: 0 <= i < |raw| && InSeries(raw[i], s, inclusive, t) && x == Scale(k, raw[i]);
    }
    SameSeries(a, b);
  }

  /** Where no two candles given share an opening time, tidying keeps them all. */
  lemma TidyKeepsAll(candles: seq<Candle>)
    requires forall x, y :: x in candles && y in candles && x.open == y.open ==> x == y
    ensures forall x :: x in Tidy(candles) <==> x in candles
  {
    forall x | x in candles
      ensures x in Tidy(candles)
    {
      var i :| 0 <= i < |candles| && candles[i] == x;
      assert HasOpen(candles, x.open) && HasOpen(Tidy(candles), x.open);
      var j :| 0 <= j < |Tidy(candles)| && Tidy(candles)[j].open == x.open;
      assert Tidy(candles)[j] in Tidy(candles);
    }
  }

  lemma OneCandlePerOpen(raw: seq<Candle>, s: Series, i: nat, j: nat)
    requires History(raw, s) && i < |raw| && j < |raw| && raw[i].open == raw[j].open
    ensures i == j
  {
  }

  /** The closed candles of a full answer, tidied, are the series. */
  lemma FullAnswerIsSeries(raw: seq<Candle>, s: Series, inclusive: bool, k: real, now: int, candles: seq<Candle>)
    requires History(raw, s) && k > 0.0 && AnswerOf(raw, inclusive, k, s.since, now, candles)
    ensures IsSeries(raw, s, inclusive, now, k, Tidy(Closed(candles, s.timeframe, now)))
  {
    var closed := Closed(candles, s.timeframe, now);
    forall x
      ensures x in closed <==>
                exists i :: 0 <= i < |raw| && InSeries(raw[i], s, inclusive, now) && x == Scale(k, raw[i])
    {
      if i :| 0 <= i < |raw| && InSeries(raw[i], s, inclusive, now) && x == Scale(k, raw[i]) {
        assert x in candles;
      }
    }
    TidyIsSeries(raw, s, inclusive, now, k, closed);
  }

  // ---- extending the series ------------------------------------------------------------------------

  /** The last stored candle, and where it stands in the raw history. */
  lemma LastOfSeries(raw: seq<Candle>, s: Series, inclusive: bool, t: int, k: real,
                     existing: seq<Candle>) returns (m: nat)
    requires k > 0.0 && IsSeries(raw, s, inclusive, t, k, existing) && existing != []
    ensures m < |raw| && InSeries(raw[m], s, inclusive, t) && existing[|existing| - 1] == Scale(k, raw[m])
  {
    var last := existing[|existing| - 1];
    assert last in existing;
    m :| 0 <= m < |raw| && InSeries(raw[m], s, inclusive, t) && last == Scale(k, raw[m]);
  }

  /** Some candle closed since the last stored one. */
  ghost predicate HasFresh(raw: seq<Candle>, s: Series, last: int, now: int) {
    exists i :: 0 <= i < |raw| && raw[i].open > last && raw[i].open + s.timeframe <= now
  }

  /** The stored candles stay those of the series as long as none closed since. */
  lemma NothingNew(raw: seq<Candle>, s: Series, inclusive: bool, t: int, now: int, k: real, existing: seq<Candle>)
    requires History(raw, s) && k > 0.0 && IsSeries(raw, s, inclusive, t, k, existing) && existing != [] && t <= now
    requires !HasFresh(raw, s, existing[|existing| - 1].open, now)
    ensures IsSeries(raw, s, inclusive, now, k, existing)
  {
    var m := LastOfSeries(raw, s, inclusive, t, k, existing);
    forall x
      ensures x in existing <==>
                exists i :: 0 <= i < |raw| && InSeries(raw[i], s, inclusive, now) && x == Scale(k, raw[i])
    {
      if i :| 0 <= i < |raw| && InSeries(raw[i], s, inclusive, now) && x == Scale(k, raw[i]) {
        assert raw[i].open <= raw[m].open;
        assert InSeries(raw[i], s, inclusive, t);
      }
      if x in existing {
        var i :| 0 <= i < |raw| && InSeries(raw[i], s, inclusive, t) && x == Scale(k, raw[i]);
        assert InSeries(raw[i], s, inclusive, now);
      }
    }
  }

  /** Before a candle could have opened and closed after the last stored one, there is nothing new. */
  lemma NotDueIsNothingNew(raw: seq<Candle>, s: Series, inclusive: bool, t: int, now: int, k: real,
                           existing: seq<Candle>)
    requires History(raw, s) && k > 0.0 && IsSeries(raw, s, inclusive, t, k, existing) && existing != []
    requires !IsDue(s, existing, now)
    ensures !HasFresh(raw, s, existing[|existing| - 1].open, now)
  {
    var m := LastOfSeries(raw, s, inclusive, t, k, existing);
    forall i | 0 <= i < |raw| && raw[i].open > raw[m].open
      ensures raw[i].open + s.timeframe > now
    {
      assert i > m;
    }
  }

  /** The newer candles of a tail answer. */
  lemma TailIsFresh(raw: seq<Candle>, s: Series, inclusive: bool, k: real, last: int, now: int, candles: seq<Candle>,
                    x: Candle)
    requires History(raw, s) && k > 0.0 && AnswerOf(raw, inclusive, k, last, now, candles)
    ensures x in After(Closed(candles, s.timeframe, now), last) <==>
              exists i :: 0 <= i < |raw| && raw[i].open > last && raw[i].open + s.timeframe <= now && x == Scale(k, raw[i])
  {
    if i :| 0 <= i < |raw| && raw[i].open > last && raw[i].open + s.timeframe <= now && x == Scale(k, raw[i]) {
      assert From(raw[i].open, last, inclusive);
      assert x in candles;
    }
  }

  lemma ExtendedIsSeries(raw: seq<Candle>, s: Series, inclusive: bool, t: int, now: int, k: real, existing: seq<Candle>,
                         candles: seq<Candle>)
    requires History(raw, s) && k > 0.0 && IsSeries(raw, s, inclusive, t, k, existing) && existing != [] && t <= now
    requires AnswerOf(raw, inclusive, k, existing[|existing| - 1].open, now, candles)
    ensures var last := existing[|existing| - 1].open;
            IsSeries(raw, s, inclusive, now, k, Tidy(existing + After(Closed(candles, s.timeframe, now), last)))
  {
    var last := existing[|existing| - 1].open;
    var newer := After(Closed(candles, s.timeframe, now), last);
    forall x
      ensures x in existing + newer <==>
                exists i :: 0 <= i < |raw| && InSeries(raw[i], s, inclusive, now) && x == Scale(k, raw[i])
    {
      ExtendedHolds(raw, s, inclusive, t, now, k, existing, candles, x);
    }
    hide After, Closed;
    TidyIsSeries(raw, s, inclusive, now, k, existing + newer);
  }

  lemma TidyIsSeries(raw: seq<Candle>, s: Series, inclusive: bool, now: int, k: real, candles: seq<Candle>)
    requires History(raw, s) && k > 0.0
    requires forall x :: x in candles <==>
               exists i :: 0 <= i < |raw| && InSeries(raw[i], s, inclusive, now) && x == Scale(k, raw[i])
    ensures IsSeries(raw, s, inclusive, now, k, Tidy(candles))
  {
    forall x, y | x in candles && y in candles && x.open == y.open
      ensures x == y
    {
      var i :| 0 <= i < |raw| && InSeries(raw[i], s, inclusive, now) && x == Scale(k, raw[i]);
      var j :| 0 <= j < |raw| && InSeries(raw[j], s, inclusive, now) && y == Scale(k, raw[j]);
      OneCandlePerOpen(raw, s, i, j);
    }
    TidyKeepsAll(candles);
  }

  lemma ExtendedHolds(raw: seq<Candle>, s: Series, inclusive: bool, t: int, now: int, k: real, existing: seq<Candle>,
                      candles: seq<Candle>, x: Candle)
    requires History(raw, s) && k > 0.0 && IsSeries(raw, s, inclusive, t, k, existing) && existing != [] && t <= now
    requires AnswerOf(raw, inclusive, k, existing[|existing| - 1].open, now, candles)
    ensures x in existing + After(Closed(candles, s.timeframe, now), existing[|existing| - 1].open) <==>
              exists i :: 0 <= i < |raw| && InSeries(raw[i], s, inclusive, now) && x == Scale(k, raw[i])
  {
    var last := existing[|existing| - 1].open;
    var newer := After(Closed(candles, s.timeframe, now), last);
    var m := LastOfSeries(raw, s, inclusive, t, k, existing);
    {
      TailIsFresh(raw, s, inclusive, k, last, now, candles, x);
      if i :| 0 <= i < |raw| && InSeries(raw[i], s, inclusive, now) && x == Scale(k, raw[i]) {
        if raw[i].open <= raw[m].open {
          assert InSeries(raw[i], s, inclusive, t);
          assert x in existing;
        }
      }
      if x in existing {
        var i :| 0 <= i < |raw| && InSeries(raw[i], s, inclusive, t) && x == Scale(k, raw[i]);
        assert InSeries(raw[i], s, inclusive, now);
      }
      if x in newer {
        var i :| 0 <= i < |raw| && raw[i].open > last && raw[i].open + s.timeframe <= now && x == Scale(k, raw[i]);
        assert InSeries(raw[i], s, inclusive, now);
      }
    }
  }

  // ---- noticing that the history was rewritten -----------------------------------------------------

  /** The basis moved further than rounding, so a venue that returns the overlap gives it away. */
  predicate Moved(k: real, k': real)
    requires k > 0.0
  {
    k' > 1.001 * k || k' < 0.999 * k
  }

  lemma QuotientIs(d: real, b: real, r: real)
    requires b > 0.0 && r * b == d
    ensures d / b == r
  {
    assert (d / b) * b == d;
  }

  lemma AbsScaled(r: real, k: real)
    requires k > 0.0
    ensures Abs(r) > RESTATEMENT_TOLERANCE <==> Abs(r * k) > RESTATEMENT_TOLERANCE * k
  {
    if r >= 0.0 {
      assert r * k >= 0.0;
      assert (r - RESTATEMENT_TOLERANCE) * k == r * k - RESTATEMENT_TOLERANCE * k;
    } else {
      assert r * k < 0.0;
      assert (-r - RESTATEMENT_TOLERANCE) * k == -(r * k) - RESTATEMENT_TOLERANCE * k;
    }
  }

  /** The overlap bar read again on basis `k'`, where it is stored on basis `k`. */
  lemma OverlapRatio(k: real, k': real, o: real, before: real, after: real)
    requires k > 0.0 && k' > 0.0 && o > 0.0 && before == k * o && after == k' * o
    ensures before > 0.0 && after > 0.0
    ensures Abs((after - before) / before) > RESTATEMENT_TOLERANCE <==> Moved(k, k')
  {
    var r := (k' - k) / k;
    assert r * k == k' - k;
    assert r * before == (r * k) * o == after - before;
    QuotientIs(after - before, before, r);
    AbsScaled(r, k);
  }

  /** When a due refresh rebuilds the series instead of extending it. */
  lemma RebuildsWhen(raw: seq<Candle>, s: Series, inclusive: bool, t: int, now: int, k: real, k': real,
                     existing: seq<Candle>, candles: seq<Candle>)
    requires History(raw, s) && k > 0.0 && k' > 0.0
    requires IsSeries(raw, s, inclusive, t, k, existing) && existing != [] && t <= now
    requires AnswerOf(raw, inclusive, k', existing[|existing| - 1].open, now, candles)
    ensures RestatedSince(existing[|existing| - 1], Closed(candles, s.timeframe, now), s.restated)
       <==> if inclusive then Moved(k, k') else s.restated
  {
    var last := existing[|existing| - 1];
    var closed := Closed(candles, s.timeframe, now);
    var m := LastOfSeries(raw, s, inclusive, t, k, existing);
    if inclusive {
      Overlap(raw, s, k', now, candles, m);
      RatioDecides(last, closed, s.restated, raw[m], k, k');
    } else {
      forall x | x in closed
        ensures x.open != last.open
      {
        var i :| 0 <= i < |raw| && From(raw[i].open, last.open, inclusive) && raw[i].open <= now && x == Scale(k', raw[i]);
      }
    }
    hide *;
  }

  lemma RatioDecides(last: Candle, closed: seq<Candle>, restated: bool, bar: Candle, k: real, k': real)
    requires k > 0.0 && k' > 0.0 && bar.o > 0.0
    requires last == Scale(k, bar) && Find(closed, bar.open) == Some(Scale(k', bar))
    ensures RestatedSince(last, closed, restated) <==> Moved(k, k')
  {
    hide Moved, Find, Abs;
    assert last.o == k * bar.o && last.open == bar.open;
    OverlapRatio(k, k', bar.o, last.o, Scale(k', bar).o);
  }

  /** An inclusive answer begins with the overlap bar itself. */
  lemma Overlap(raw: seq<Candle>, s: Series, k: real, now: int, candles: seq<Candle>, m: nat)
    requires History(raw, s) && k > 0.0 && m < |raw| && raw[m].open + s.timeframe <= now
    requires AnswerOf(raw, true, k, raw[m].open, now, candles)
    ensures Find(Closed(candles, s.timeframe, now), raw[m].open) == Some(Scale(k, raw[m]))
  {
    var closed := Closed(candles, s.timeframe, now);
    assert Scale(k, raw[m]) in candles;
    assert Scale(k, raw[m]) in closed;
    var overlap := Find(closed, raw[m].open).value;
    var i :| 0 <= i < |raw| && From(raw[i].open, raw[m].open, true) && raw[i].open <= now && overlap == Scale(k, raw[i]);
    OneCandlePerOpen(raw, s, i, m);
  }

  // ---- one fetch -----------------------------------------------------------------------------------

  /** The stored series is empty, or a single scaling of what had closed by some past moment. */
  ghost predicate OnBasis(raw: seq<Candle>, s: Series, inclusive: bool, stored: Option<seq<Candle>>, t: int, k: real)
    requires k > 0.0
  {
    stored.Some? && stored.value != [] ==> IsSeries(raw, s, inclusive, t, k, stored.value)
  }

  /** The venue's answers to a fetch: a failure, or its history on the basis it stands on at that call. */
  ghost predicate Answers(raw: seq<Candle>, inclusive: bool, k: real, start: int, now: int, answer: Response)
    requires k > 0.0
  {
    answer.Success? ==> AnswerOf(raw, inclusive, k, start, now, answer.candles)
  }

  predicate HasStored(stored: Option<seq<Candle>>) {
    stored.Some? && stored.value != []
  }

  /** The fetch finds the series due, and its tail answer comes. */
  predicate ReadsTail(s: Series, stored: Option<seq<Candle>>, now: int, tail: Response) {
    HasStored(stored) && IsDue(s, stored.value, now) && tail.Success?
  }

  /** The rewritten history is noticed: by the overlap bar, or where a venue restates, by its absence. */
  predicate Noticed(s: Series, inclusive: bool, k: real, k': real)
    requires k > 0.0
  {
    if inclusive then Moved(k, k') else s.restated
  }

  /** What a fetch leaves behind when it succeeds: the whole series at `now`, on one basis, answered and stored. */
  ghost predicate Whole(raw: seq<Candle>, s: Series, inclusive: bool, now: int, f: Fetched, stored: Option<seq<Candle>>,
                        k: real)
    requires k > 0.0
  {
    && f.result.Success? && IsSeries(raw, s, inclusive, now, k, f.result.candles)
    && (HasStored(stored) ==> f.result.candles != [])
    && f.stored == if f.result.candles == [] then stored else Some(f.result.candles)
  }

  /** With nothing stored, the fetch is a full one. */
  lemma FullFetch(raw: seq<Candle>, s: Series, inclusive: bool, stored: Option<seq<Candle>>, now: int, tail: Response,
                  whole: Response, k': real)
    requires History(raw, s) && k' > 0.0 && !HasStored(stored) && tail.Success?
    requires AnswerOf(raw, inclusive, k', s.since, now, tail.candles)
    ensures Whole(raw, s, inclusive, now, Fetch(s, stored, now, tail, whole), stored, k')
  {
    FullAnswerIsSeries(raw, s, inclusive, k', now, tail.candles);
  }

  /** A rebuild is a full fetch too. */
  lemma RebuildIsWhole(raw: seq<Candle>, s: Series, inclusive: bool, stored: Option<seq<Candle>>, t: int, k: real,
                       now: int, whole: Response, k'': real)
    requires History(raw, s) && k > 0.0 && k'' > 0.0 && HasStored(stored) && t <= now && whole.Success?
    requires IsSeries(raw, s, inclusive, t, k, stored.value)
    requires AnswerOf(raw, inclusive, k'', s.since, now, whole.candles)
    ensures Whole(raw, s, inclusive, now, Rebuild(s, stored, now, whole), stored, k'')
    ensures Rebuild(s, stored, now, whole).result.candles != []
  {
    FullAnswerIsSeries(raw, s, inclusive, k'', now, whole.candles);
    var m := LastOfSeries(raw, s, inclusive, t, k, stored.value);
    assert Scale(k'', raw[m]) in whole.candles;
    var closed := Closed(whole.candles, s.timeframe, now);
    assert Scale(k'', raw[m]) in closed;
    var i :| 0 <= i < |closed| && closed[i] == Scale(k'', raw[m]);
    assert HasOpen(closed, closed[i].open) && HasOpen(Tidy(closed), closed[i].open);
  }

  /** A due fetch whose tail answer comes either rebuilds, or appends the tail on the venue's basis at that call. */
  lemma DueFetch(raw: seq<Candle>, s: Series, inclusive: bool, stored: Option<seq<Candle>>, t: int, k: real,
                 now: int, tail: Response, whole: Response, k': real)
    requires History(raw, s) && k > 0.0 && k' > 0.0 && ReadsTail(s, stored, now, tail) && t <= now
    requires IsSeries(raw, s, inclusive, t, k, stored.value)
    requires AnswerOf(raw, inclusive, k', StartOf(s, stored), now, tail.candles)
    ensures var last := stored.value[|stored.value| - 1].open;
            Fetch(s, stored, now, tail, whole)
            == if Noticed(s, inclusive, k, k') then Rebuild(s, stored, now, whole)
               else StoreSeries(stored, stored.value + After(Closed(tail.candles, s.timeframe, now), last), 1)
  {
    hide IsSeries, AnswerOf, Closed, Moved, RestatedSince;
    RebuildsWhen(raw, s, inclusive, t, now, k, k', stored.value, tail.candles);
  }

  /**
   One fetch, at any moment after the last, with the venue on basis `k'` at its first call and `k''` at a
   rebuild: it fails and keeps what is stored, or answers and stores the whole series on one basis, as long
   as a venue that moved off the stored basis is noticed. It never calls the venue more than twice.
   */
  lemma FetchKeepsOneBasis(raw: seq<Candle>, s: Series, inclusive: bool, stored: Option<seq<Candle>>, t: int, k: real,
                           now: int, tail: Response, whole: Response, k': real, k'': real)
    requires History(raw, s) && k > 0.0 && k' > 0.0 && k'' > 0.0 && t <= now
    requires OnBasis(raw, s, inclusive, stored, t, k)
    requires Answers(raw, inclusive, k', StartOf(s, stored), now, tail)
    requires Answers(raw, inclusive, k'', s.since, now, whole)
    requires ReadsTail(s, stored, now, tail) ==> k' == k || Noticed(s, inclusive, k, k')
    ensures var f := Fetch(s, stored, now, tail, whole);
            && f.calls <= 2
            && (f.result.Failure? ==> f.stored == stored)
            && (f.result.Success? ==>
                 Whole(raw, s, inclusive, now, f, stored, k) || Whole(raw, s, inclusive, now, f, stored, k')
                                      || Whole(raw, s, inclusive, now, f, stored, k''))
            && (f.result.Success? && !HasStored(stored) ==> Whole(raw, s, inclusive, now, f, stored, k'))
            && (ReadsTail(s, stored, now, tail) && whole.Success? ==>
                  Whole(raw, s, inclusive, now, f, stored, k') || Whole(raw, s, inclusive, now, f, stored, k''))
  {
    hide IsSeries, AnswerOf, Closed, HasFresh, IsDue, History, Moved;
    if !HasStored(stored) {
      if tail.Success? {
        FullFetch(raw, s, inclusive, stored, now, tail, whole, k');
      }
    } else if !IsDue(s, stored.value, now) {
      NotDueIsNothingNew(raw, s, inclusive, t, now, k, stored.value);
      NothingNew(raw, s, inclusive, t, now, k, stored.value);
    } else if tail.Success? {
      DueFetch(raw, s, inclusive, stored, t, k, now, tail, whole, k');
      if Noticed(s, inclusive, k, k') {
        if whole.Success? {
          RebuildIsWhole(raw, s, inclusive, stored, t, k, now, whole, k'');
        }
      } else {
        ExtendedIsSeries(raw, s, inclusive, t, now, k, stored.value, tail.candles);
        ExtendedNotEmpty(s, stored.value, tail.candles, now);
      }
    }
  }

  lemma ExtendedNotEmpty(s: Series, existing: seq<Candle>, candles: seq<Candle>, now: int)
    requires existing != []
    ensures Tidy(existing + After(Closed(candles, s.timeframe, now), existing[|existing| - 1].open)) != []
  {
    var all := existing + After(Closed(candles, s.timeframe, now), existing[|existing| - 1].open);
    assert all[0] == existing[0] && HasOpen(all, existing[0].open) && HasOpen(Tidy(all), existing[0].open);
  }

  ghost predicate OnOneBasis(raw: seq<Candle>, s: Series, inclusive: bool, now: int, candles: seq<Candle>) {
    exists b :: b > 0.0 && IsSeries(raw, s, inclusive, now, b, candles)
  }

  lemma SeriesIsOnOneBasis(raw: seq<Candle>, s: Series, inclusive: bool, now: int, candles: seq<Candle>, b: real)
    requires b > 0.0 && IsSeries(raw, s, inclusive, now, b, candles)
    ensures OnOneBasis(raw, s, inclusive, now, candles)
  {
  }

  /** Two different bases leave no single one. */
  lemma MixedHasNoBasis(raw: seq<Candle>, s: Series, inclusive: bool, now: int, candles: seq<Candle>, k: real, k': real,
                        m: nat, j: nat, b: real)
    requires History(raw, s) && k > 0.0 && k' > 0.0 && b > 0.0 && k != k' && m < |raw| && j < |raw|
    requires Scale(k, raw[m]) in candles && Scale(k', raw[j]) in candles
    ensures !IsSeries(raw, s, inclusive, now, b, candles)
  {
    if IsSeries(raw, s, inclusive, now, b, candles) {
      SameBasis(raw, s, inclusive, now, candles, k, m, b);
      SameBasis(raw, s, inclusive, now, candles, k', j, b);
    }
  }

  lemma SameBasis(raw: seq<Candle>, s: Series, inclusive: bool, now: int, candles: seq<Candle>, k: real, m: nat,
                  b: real)
    requires History(raw, s) && k > 0.0 && b > 0.0 && m < |raw| && Scale(k, raw[m]) in candles
    requires IsSeries(raw, s, inclusive, now, b, candles)
    ensures k == b
  {
    var i :| 0 <= i < |raw| && InSeries(raw[i], s, inclusive, now) && Scale(k, raw[m]) == Scale(b, raw[i]);
    assert Scale(k, raw[m]).open == Scale(b, raw[i]).open;
    OneCandlePerOpen(raw, s, i, m);
    ScaleDecides(raw[m], k, b);
  }

  lemma ScaleDecides(c: Candle, k: real, b: real)
    requires k > 0.0 && b > 0.0 && c.o > 0.0 && Scale(k, c) == Scale(b, c)
    ensures k == b
  {
    assert Scale(k, c).o == Scale(b, c).o;
    Cancel(k, b, c.o);
  }

  lemma Cancel(k: real, b: real, o: real)
    requires o > 0.0 && k * o == b * o
    ensures k == b
  {
    QuotientIs(k * o, o, k);
    QuotientIs(b * o, o, b);
  }

  /**
   Exactly when a due refresh leaves a single basis behind: the venue stands where the stored series
   stands, or it moved and is noticed, or nothing closed since. A venue that moved by no more than the
   tolerance is not noticed, and the candles it adds are on another basis than those before them.
   */
  lemma OneBasisExactlyWhen(raw: seq<Candle>, s: Series, inclusive: bool, stored: Option<seq<Candle>>, t: int, k: real,
                            now: int, tail: Response, whole: Response, k': real, k'': real)
    requires History(raw, s) && k > 0.0 && k' > 0.0 && k'' > 0.0 && t <= now
    requires ReadsTail(s, stored, now, tail) && whole.Success? && IsSeries(raw, s, inclusive, t, k, stored.value)
    requires Answers(raw, inclusive, k', StartOf(s, stored), now, tail)
    requires Answers(raw, inclusive, k'', s.since, now, whole)
    ensures var f := Fetch(s, stored, now, tail, whole);
            HasStored(f.stored)
            && (OnOneBasis(raw, s, inclusive, now, f.stored.value)
                <==>
                          (k' == k || Noticed(s, inclusive, k, k') || !HasFresh(raw, s, stored.value[|stored.value| - 1].open, now)))
  {
    hide IsSeries, AnswerOf, Closed, Noticed, HasFresh, IsDue, History, OnOneBasis;
    var f := Fetch(s, stored, now, tail, whole);
    var existing := stored.value;
    DueFetch(raw, s, inclusive, stored, t, k, now, tail, whole, k');
    ExtendedNotEmpty(s, existing, tail.candles, now);
    if Noticed(s, inclusive, k, k') {
      RebuildIsWhole(raw, s, inclusive, stored, t, k, now, whole, k'');
      SeriesIsOnOneBasis(raw, s, inclusive, now, f.stored.value, k'');
    } else if k' == k {
      ExtendedIsSeries(raw, s, inclusive, t, now, k, existing, tail.candles);
      SeriesIsOnOneBasis(raw, s, inclusive, now, f.stored.value, k);
    } else {
      AppendedWithoutNotice(raw, s, inclusive, existing, t, k, now, tail.candles, k');
    }
  }

  lemma AppendedWithoutNotice(raw: seq<Candle>, s: Series, inclusive: bool, existing: seq<Candle>, t: int, k: real,
                              now: int, candles: seq<Candle>, k': real)
    requires History(raw, s) && k > 0.0 && k' > 0.0 && k != k' && t <= now && existing != []
    requires IsSeries(raw, s, inclusive, t, k, existing)
    requires AnswerOf(raw, inclusive, k', existing[|existing| - 1].open, now, candles)
    ensures var last := existing[|existing| - 1].open;
            var after := Tidy(existing + After(Closed(candles, s.timeframe, now), last));
            OnOneBasis(raw, s, inclusive, now, after) <==> !HasFresh(raw, s, last, now)
  {
    hide IsSeries, AnswerOf, Closed, After, OnOneBasis;
    var last := existing[|existing| - 1].open;
    var newer := After(Closed(candles, s.timeframe, now), last);
    forall x
      ensures x in newer <==>
                exists i :: 0 <= i < |raw| && raw[i].open > last && raw[i].open + s.timeframe <= now && x == Scale(k', raw[i])
    {
      TailIsFresh(raw, s, inclusive, k', last, now, candles, x);
    }
    if HasFresh(raw, s, last, now) {
      AppendedIsMixed(raw, s, inclusive, existing, t, k, newer, now, k');
    } else {
      NoneIn(newer);
      assert existing + newer == existing;
      NothingNew(raw, s, inclusive, t, now, k, existing);
      TidyOfSeries(existing) by {
        SeriesAscends(raw, s, inclusive, t, k, existing);
      }
      SeriesIsOnOneBasis(raw, s, inclusive, now, existing, k);
    }
  }

  lemma SeriesAscends(raw: seq<Candle>, s: Series, inclusive: bool, t: int, k: real, existing: seq<Candle>)
    requires k > 0.0 && IsSeries(raw, s, inclusive, t, k, existing)
    ensures Ascending(existing)
  {
  }

  lemma AppendedIsMixed(raw: seq<Candle>, s: Series, inclusive: bool, existing: seq<Candle>, t: int, k: real,
                        newer: seq<Candle>, now: int, k': real)
    requires History(raw, s) && k > 0.0 && k' > 0.0 && k != k' && existing != []
    requires IsSeries(raw, s, inclusive, t, k, existing)
    requires HasFresh(raw, s, existing[|existing| - 1].open, now)
    requires forall x :: x in newer <==> exists i :: 0 <= i < |raw| && raw[i].open > existing[|existing| - 1].open
                                                    && raw[i].open + s.timeframe <= now && x == Scale(k', raw[i])
    ensures !OnOneBasis(raw, s, inclusive, now, Tidy(existing + newer))
  {
    var last := existing[|existing| - 1].open;
    var m := LastOfSeries(raw, s, inclusive, t, k, existing);
    var j :| 0 <= j < |raw| && raw[j].open > last && raw[j].open + s.timeframe <= now;
    AppendedKeeps(raw, s, inclusive, existing, t, k, newer, last, now, k');
    assert Scale(k', raw[j]) in newer;
    hide IsSeries;
    assert Scale(k, raw[m]) in existing + newer && Scale(k', raw[j]) in existing + newer;
    forall b | b > 0.0
      ensures !IsSeries(raw, s, inclusive, now, b, Tidy(existing + newer))
    {
      MixedHasNoBasis(raw, s, inclusive, now, Tidy(existing + newer), k, k', m, j, b);
    }
  }

  lemma NoneIn(xs: seq<Candle>)
    requires forall x :: x !in xs
    ensures xs == []
  {
    if xs != [] {
      var x := SomeOf(xs);
    }
  }

  lemma TidyOfSeries(candles: seq<Candle>)
    requires Ascending(candles)
    ensures Tidy(candles) == candles
  {
    forall x, y | x in candles && y in candles && x.open == y.open
      ensures x == y
    {
      var i :| 0 <= i < |candles| && candles[i] == x;
      var j :| 0 <= j < |candles| && candles[j] == y;
    }
    TidyKeepsAll(candles);
    SameSeries(Tidy(candles), candles);
  }

  lemma AppendedKeeps(raw: seq<Candle>, s: Series, inclusive: bool, existing: seq<Candle>, t: int, k: real,
                      newer: seq<Candle>,
                      last: int, now: int, k': real)
    requires History(raw, s) && k > 0.0 && k' > 0.0 && existing != [] && IsSeries(raw, s, inclusive, t, k, existing)
    requires last == existing[|existing| - 1].open
    requires forall x :: x in newer ==>
               exists i :: 0 <= i < |raw| && raw[i].open > last && raw[i].open + s.timeframe <= now && x == Scale(k', raw[i])
    ensures forall x :: x in Tidy(existing + newer) <==> x in existing + newer
  {
    forall x, y | x in existing + newer && y in existing + newer && x.open == y.open
      ensures x == y
    {
      if x in existing && y in existing {
        var i :| 0 <= i < |existing| && existing[i] == x;
        var j :| 0 <= j < |existing| && existing[j] == y;
      } else if x in newer && y in newer {
        var i :| 0 <= i < |raw| && raw[i].open > last && raw[i].open + s.timeframe <= now && x == Scale(k', raw[i]);
        var j :| 0 <= j < |raw| && raw[j].open > last && raw[j].open + s.timeframe <= now && y == Scale(k', raw[j]);
        OneCandlePerOpen(raw, s, i, j);
      } else if x in existing {
        LastIsLatest(existing, x);
      } else {
        LastIsLatest(existing, y);
      }
    }
    TidyKeepsAll(existing + newer);
  }

  // ---- whole runs ----------------------------------------------------------------------------------

  /** A fetch at `now`, with the venue on basis `first` at its first call and `second` at a rebuild; or an eviction. */
  datatype Event =
    | Evicted
    | Fetches(now: int, first: real, second: real, tail: Response, whole: Response)

  function StoredAfter(s: Series, events: seq<Event>, n: nat): Option<seq<Candle>>
    requires n <= |events|
  {
    if n == 0 then None
    else
      match events[n - 1]
      case Evicted => None
      case Fetches(now, _, _, tail, whole) => Fetch(s, StoredAfter(s, events, n - 1), now, tail, whole).stored
  }

  /** Time does not run back, and the venue answers with its history on the basis of the moment, or fails. */
  ghost predicate Run(raw: seq<Candle>, s: Series, inclusive: bool, events: seq<Event>) {
    && (forall n :: 0 <= n < |events| && events[n].Fetches? ==>
          var e, stored := events[n], StoredAfter(s, events, n);
          && e.first > 0.0 && e.second > 0.0
          && Answers(raw, inclusive, e.first, StartOf(s, stored), e.now, e.tail)
          && Answers(raw, inclusive, e.second, s.since, e.now, e.whole))
    && (forall m, n :: 0 <= m < n < |events| && events[m].Fetches? && events[n].Fetches? ==>
         events[m].now <= events[n].now)
  }

  /** At each refresh the venue stands where the stored series stands, or far enough away to be noticed. */
  ghost predicate EveryMoveNoticed(raw: seq<Candle>, s: Series, inclusive: bool, events: seq<Event>) {
    forall n, t, k {:trigger IsSeries(raw, s, inclusive, t, k, StoredAfter(s, events, n).value)} ::
      0 <= n < |events| && events[n].Fetches? && k > 0.0
      && ReadsTail(s, StoredAfter(s, events, n), events[n].now, events[n].tail)
      && IsSeries(raw, s, inclusive, t, k, StoredAfter(s, events, n).value)
      ==> events[n].first == k || Noticed(s, inclusive, k, events[n].first)
  }

  predicate NotAfter(events: seq<Event>, n: nat, t: int)
    requires n <= |events|
  {
    forall m :: n <= m < |events| && events[m].Fetches? ==> t <= events[m].now
  }

  lemma {:induction false} RunKeepsOneBasis(raw: seq<Candle>, s: Series, inclusive: bool, events: seq<Event>, n: nat)
    returns (t: int, k: real)
    requires History(raw, s) && Run(raw, s, inclusive, events) && EveryMoveNoticed(raw, s, inclusive, events)
    requires n <= |events|
    ensures k > 0.0 && OnBasis(raw, s, inclusive, StoredAfter(s, events, n), t, k)
    ensures HasStored(StoredAfter(s, events, n)) ==> NotAfter(events, n, t)
  {
    hide Fetch, IsSeries, Run, History, Noticed;
    t, k := 0, 1.0;
    if n > 0 && events[n - 1].Fetches? {
      var e, stored := events[n - 1], StoredAfter(s, events, n - 1);
      var t0, k0 := RunKeepsOneBasis(raw, s, inclusive, events, n - 1);
      t, k := FetchInRun(raw, s, inclusive, stored, t0, k0, e, events, n - 1);
    }
  }

  /** One fetch of a run, from a single basis to a single basis. */
  lemma FetchInRun(raw: seq<Candle>, s: Series, inclusive: bool, stored: Option<seq<Candle>>, t0: int, k0: real,
                   e: Event, events: seq<Event>, n: nat)
    returns (t: int, k: real)
    requires History(raw, s) && Run(raw, s, inclusive, events)
    requires n < |events| && e == events[n] && e.Fetches? && stored == StoredAfter(s, events, n)
    requires k0 > 0.0 && (ReadsTail(s, stored, e.now, e.tail) ==> e.first == k0 || Noticed(s, inclusive, k0, e.first))
    requires OnBasis(raw, s, inclusive, stored, t0, k0) && (HasStored(stored) ==> NotAfter(events, n, t0))
    ensures var f := Fetch(s, stored, e.now, e.tail, e.whole);
            && k > 0.0 && OnBasis(raw, s, inclusive, f.stored, t, k) && (HasStored(f.stored) ==>
                 NotAfter(events, n + 1, t))
            && f.calls <= 2
            && (k in {e.first, e.second} || (k == k0 && (HasStored(f.stored) ==> HasStored(stored))))
            && (ReadsTail(s, stored, e.now, e.tail) && e.whole.Success? ==> k in {e.first, e.second})
            && (f.result.Success? ==> IsSeries(raw, s, inclusive, e.now, k, f.result.candles))
            && (f.result.Failure? ==> f.stored == stored)
  {
    hide IsSeries, IsDue, Fetch, Noticed, Answers;
    var f := Fetch(s, stored, e.now, e.tail, e.whole);
    var was := if HasStored(stored) then t0 else e.now;
    FetchKeepsOneBasis(raw, s, inclusive, stored, was, k0, e.now, e.tail, e.whole, e.first, e.second);
    if f.result.Failure? {
      t, k := t0, k0;
    } else {
      t := e.now;
      if Whole(raw, s, inclusive, e.now, f, stored, e.first) {
        k := e.first;
      } else if Whole(raw, s, inclusive, e.now, f, stored, e.second) {
        k := e.second;
      } else {
        k := k0;
      }
    }
  }

  /** Over any run of fetches and evictions in which every move of the venue is noticed. */
  lemma EveryFetchIsOnOneBasis(raw: seq<Candle>, s: Series, inclusive: bool, events: seq<Event>, n: nat)
    requires History(raw, s) && Run(raw, s, inclusive, events) && EveryMoveNoticed(raw, s, inclusive, events)
    requires n < |events| && events[n].Fetches?
    ensures var e, stored := events[n], StoredAfter(s, events, n);
            var f := Fetch(s, stored, e.now, e.tail, e.whole);
            && f.calls <= 2
            && (f.result.Failure? ==> f.stored == stored)
            && (f.result.Success? ==> OnOneBasis(raw, s, inclusive, e.now, f.result.candles))
  {
    hide Fetch;
    var t0, k0 := RunKeepsOneBasis(raw, s, inclusive, events, n);
    var t, k := FetchInRun(raw, s, inclusive, StoredAfter(s, events, n), t0, k0, events[n], events, n);
    var f := Fetch(s, StoredAfter(s, events, n), events[n].now, events[n].tail, events[n].whole);
    if f.result.Success? {
      SeriesIsOnOneBasis(raw, s, inclusive, events[n].now, f.result.candles, k);
    }
  }

  // ---- runs of a venue whose moves are noticed -----------------------------------------------------

  /** The venue was asked on this basis at this fetch: at its first call, or at a rebuild. */
  predicate AskedOn(e: Event, k: real) {
    e.Fetches? && (k == e.first || k == e.second)
  }

  /** Whenever the venue is asked, it stands where it stood at each earlier call, or far enough from it to be noticed. */
  ghost predicate VenueMovesNoticeably(s: Series, inclusive: bool, events: seq<Event>) {
    forall m, n, k :: 0 <= m < n < |events| && events[n].Fetches? && AskedOn(events[m], k) && k > 0.0 ==>
      events[n].first == k || Noticed(s, inclusive, k, events[n].first)
  }

  lemma {:induction false} RunOnAVenueBasis(raw: seq<Candle>, s: Series, inclusive: bool, events: seq<Event>, n: nat)
    returns (t: int, k: real)
    requires History(raw, s) && Run(raw, s, inclusive, events) && VenueMovesNoticeably(s, inclusive, events)
    requires n <= |events|
    ensures k > 0.0 && OnBasis(raw, s, inclusive, StoredAfter(s, events, n), t, k)
    ensures HasStored(StoredAfter(s, events, n)) ==>
              NotAfter(events, n, t) && exists m :: 0 <= m < n && AskedOn(events[m], k)
  {
    hide Fetch, IsSeries, Run, History, Noticed;
    t, k := 0, 1.0;
    if n > 0 && events[n - 1].Fetches? {
      var e, stored := events[n - 1], StoredAfter(s, events, n - 1);
      var t0, k0 := RunOnAVenueBasis(raw, s, inclusive, events, n - 1);
      t, k := FetchInRun(raw, s, inclusive, stored, t0, k0, e, events, n - 1);
      assert AskedOn(events[n - 1], e.first) && AskedOn(events[n - 1], e.second);
    }
  }

  /** Over any run of a venue whose moves are noticed, a condition on the venue alone. */
  lemma VenueKeepsOneBasis(raw: seq<Candle>, s: Series, inclusive: bool, events: seq<Event>, n: nat)
    requires History(raw, s) && Run(raw, s, inclusive, events) && VenueMovesNoticeably(s, inclusive, events)
    requires n < |events| && events[n].Fetches?
    ensures var e, stored := events[n], StoredAfter(s, events, n);
            var f := Fetch(s, stored, e.now, e.tail, e.whole);
            && f.calls <= 2
            && (f.result.Failure? ==> f.stored == stored)
            && (f.result.Success? ==> OnOneBasis(raw, s, inclusive, e.now, f.result.candles))
  {
    hide Fetch, Noticed;
    var t0, k0 := RunOnAVenueBasis(raw, s, inclusive, events, n);
    var t, k := FetchInRun(raw, s, inclusive, StoredAfter(s, events, n), t0, k0, events[n], events, n);
    var f := Fetch(s, StoredAfter(s, events, n), events[n].now, events[n].tail, events[n].whole);
    if f.result.Success? {
      SeriesIsOnOneBasis(raw, s, inclusive, events[n].now, f.result.candles, k);
    }
  }

  // ---- runs with one move between reads ------------------------------------------------------------

  /** The venue answered the fetch's first call: nothing was stored, or the series was due. */
  predicate Hears(s: Series, stored: Option<seq<Candle>>, e: Event) {
    e.Fetches? && e.tail.Success? && (HasStored(stored) ==> IsDue(s, stored.value, e.now))
  }

  /** The last of the first n events at which the venue answered. */
  function LastHeard(s: Series, events: seq<Event>, n: nat): (m: Option<nat>)
    requires n <= |events|
    ensures m.Some? ==> m.value < n && events[m.value].Fetches?
  {
    if n == 0 then None
    else if Hears(s, StoredAfter(s, events, n - 1), events[n - 1]) then Some(n - 1)
    else LastHeard(s, events, n - 1)
  }

  /** From b0 through b1 to b2 the venue moved once at most, and then by more than the tolerance. */
  predicate OneMove(b0: real, b1: real, b2: real)
    requires b0 > 0.0
  {
    (b1 == b0 || b1 == b2) && (b0 == b2 || Moved(b0, b2))
  }

  /** Between the last answer and each tail read the venue moved once at most, and a rebuild then asked for comes. */
  ghost predicate OneMoveBetweenReads(s: Series, events: seq<Event>) {
    forall n :: 0 <= n < |events| && events[n].Fetches? && ReadsTail(s, StoredAfter(s, events, n), events[n].now, events[n].tail)
                && LastHeard(s, events, n).Some? ==>
      var m := LastHeard(s, events, n).value;
      events[n].whole.Success? && events[m].first > 0.0 && OneMove(events[m].first, events[m].second, events[n].first)
  }

  /** A fetch that does not hear from the venue leaves the stored series alone. */
  lemma UnheardKeepsStored(s: Series, stored: Option<seq<Candle>>, e: Event)
    requires e.Fetches? && !Hears(s, stored, e)
    ensures Fetch(s, stored, e.now, e.tail, e.whole).stored == stored
  {
  }

  lemma {:induction false} RunOnTheLastBasis(raw: seq<Candle>, s: Series, inclusive: bool, events: seq<Event>, n: nat)
    returns (t: int, k: real)
    requires History(raw, s) && Run(raw, s, inclusive, events) && (inclusive || s.restated)
    requires OneMoveBetweenReads(s, events) && n <= |events|
    ensures k > 0.0 && OnBasis(raw, s, inclusive, StoredAfter(s, events, n), t, k)
    ensures HasStored(StoredAfter(s, events, n)) ==>
              NotAfter(events, n, t) && LastHeard(s, events, n).Some? && AskedOn(events[LastHeard(s, events, n).value], k)
  {
    hide Fetch, IsSeries, Run, History, Moved, IsDue;
    t, k := 0, 1.0;
    if n > 0 && events[n - 1].Fetches? {
      var e, stored := events[n - 1], StoredAfter(s, events, n - 1);
      var t0, k0 := RunOnTheLastBasis(raw, s, inclusive, events, n - 1);
      if Hears(s, stored, e) {
        t, k := FetchInRun(raw, s, inclusive, stored, t0, k0, e, events, n - 1);
      } else {
        UnheardKeepsStored(s, stored, e);
        t, k := t0, k0;
      }
    }
  }

  /** Over any run in which the venue moves once at most between two answers, and rebuilds come. */
  lemma OneMoveKeepsOneBasis(raw: seq<Candle>, s: Series, inclusive: bool, events: seq<Event>, n: nat)
    requires History(raw, s) && Run(raw, s, inclusive, events) && (inclusive || s.restated)
    requires OneMoveBetweenReads(s, events) && n < |events| && events[n].Fetches?
    ensures var e, stored := events[n], StoredAfter(s, events, n);
            var f := Fetch(s, stored, e.now, e.tail, e.whole);
            f.result.Success? ==> OnOneBasis(raw, s, inclusive, e.now, f.result.candles)
  {
    hide Fetch, IsDue, Moved;
    var t0, k0 := RunOnTheLastBasis(raw, s, inclusive, events, n);
    var t, k := FetchInRun(raw, s, inclusive, StoredAfter(s, events, n), t0, k0, events[n], events, n);
    var f := Fetch(s, StoredAfter(s, events, n), events[n].now, events[n].tail, events[n].whole);
    if f.result.Success? {
      SeriesIsOnOneBasis(raw, s, inclusive, events[n].now, f.result.candles, k);
    }
  }

  /** A venue that never rewrites its history. */
  predicate Immutable(events: seq<Event>) {
    forall n :: 0 <= n < |events| && events[n].Fetches? ==> events[n].first == 1.0 && events[n].second == 1.0
  }

  lemma {:induction false} ImmutableRun(raw: seq<Candle>, s: Series, inclusive: bool, events: seq<Event>,
                                        n: nat) returns (t: int)
    requires History(raw, s) && Run(raw, s, inclusive, events) && Immutable(events) && n <= |events|
    ensures OnBasis(raw, s, inclusive, StoredAfter(s, events, n), t, 1.0)
    ensures HasStored(StoredAfter(s, events, n)) ==> NotAfter(events, n, t)
  {
    hide Fetch, IsSeries, Run, History, Immutable;
    t := 0;
    if n > 0 && events[n - 1].Fetches? {
      var t0 := ImmutableRun(raw, s, inclusive, events, n - 1);
      t := ImmutableFetch(raw, s, inclusive, events, n - 1, t0);
    }
  }

  lemma ImmutableFetch(raw: seq<Candle>, s: Series, inclusive: bool, events: seq<Event>, n: nat,
                       t0: int) returns (t: int)
    requires History(raw, s) && Run(raw, s, inclusive, events) && Immutable(events) && n < |events|
    requires events[n].Fetches?
    requires OnBasis(raw, s, inclusive, StoredAfter(s, events, n), t0, 1.0)
    requires HasStored(StoredAfter(s, events, n)) ==> NotAfter(events, n, t0)
    ensures var e, stored := events[n], StoredAfter(s, events, n);
            var f := Fetch(s, stored, e.now, e.tail, e.whole);
            && OnBasis(raw, s, inclusive, f.stored, t, 1.0) && (HasStored(f.stored) ==> NotAfter(events, n + 1, t))
            && (f.result.Success? ==> IsSeries(raw, s, inclusive, e.now, 1.0, f.result.candles))
  {
    hide IsSeries, IsDue, Fetch, Noticed, Answers;
    var e, stored := events[n], StoredAfter(s, events, n);
    var was := if HasStored(stored) then t0 else e.now;
    FetchKeepsOneBasis(raw, s, inclusive, stored, was, 1.0, e.now, e.tail, e.whole, 1.0, 1.0);
    t := if Fetch(s, stored, e.now, e.tail, e.whole).result.Failure? then t0 else e.now;
  }

  /**
   On an immutable history, whatever fetches, failures and evictions came before, a fetch that succeeds
   answers exactly the closed candles that a full fetch at that moment would answer.
   */
  lemma AgreesWithAFullFetch(raw: seq<Candle>, s: Series, inclusive: bool, events: seq<Event>, n: nat,
                             full: seq<Candle>)
    requires History(raw, s) && Run(raw, s, inclusive, events) && Immutable(events) && n < |events|
    requires events[n].Fetches?
    requires AnswerOf(raw, inclusive, 1.0, s.since, events[n].now, full)
    ensures var e := events[n];
            var f := Fetch(s, StoredAfter(s, events, n), e.now, e.tail, e.whole);
            f.result.Success? ==> f.result.candles == Tidy(Closed(full, s.timeframe, e.now))
  {
    hide Fetch;
    var e := events[n];
    var t0 := ImmutableRun(raw, s, inclusive, events, n);
    var t := ImmutableFetch(raw, s, inclusive, events, n, t0);
    FullAnswerIsSeries(raw, s, inclusive, 1.0, e.now, full);
    var f := Fetch(s, StoredAfter(s, events, n), e.now, e.tail, e.whole);
    if f.result.Success? {
      SeriesUnique(raw, s, inclusive, e.now, 1.0, f.result.candles, Tidy(Closed(full, s.timeframe, e.now)));
    }
  }

  /**
   Two restatements between fetches, each by far more than the tolerance, can come to less than it
   together: a venue that doubles its prices and then takes them to 0.50025 of that is not noticed, and
   what the next refresh stores is on no single basis.
   */
  lemma UnnoticedRestatements(raw: seq<Candle>, s: Series, stored: Option<seq<Candle>>, t: int, now: int,
                              tail: Response, whole: Response)
    requires History(raw, s) && t <= now && ReadsTail(s, stored, now, tail) && whole.Success?
    requires IsSeries(raw, s, true, t, 1.0, stored.value)
    requires HasFresh(raw, s, stored.value[|stored.value| - 1].open, now)
    requires Answers(raw, true, 2.0 * 0.50025, StartOf(s, stored), now, tail)
    requires Answers(raw, true, 2.0 * 0.50025, s.since, now, whole)
    ensures Moved(1.0, 2.0) && Moved(2.0, 2.0 * 0.50025)
    ensures var f := Fetch(s, stored, now, tail, whole);
            HasStored(f.stored) && !OnOneBasis(raw, s, true, now, f.stored.value)
  {
    var k := 2.0 * 0.50025;
    assert k == 1.0005;
    OneBasisExactlyWhen(raw, s, true, stored, t, 1.0, now, tail, whole, k, k);
  }

  function FlatCandle(open: int): Candle {
    Candle(open, 1.0, 1.0, 1.0, 1.0, 1.0)
  }

  function FlatHistory(): seq<Candle> {
    [FlatCandle(0), FlatCandle(10), FlatCandle(20)]
  }

  const TEN_SECONDS: Series := Series(0, 10, false)

  function FlatStored(): seq<Candle> {
    [FlatCandle(0), FlatCandle(10)]
  }

  function MovedTail(): Response {
    Success([Scale(1.0005, FlatCandle(10)), Scale(1.0005, FlatCandle(20))])
  }

  function MovedWhole(): Response {
    Success([Scale(1.0005, FlatCandle(0)), Scale(1.0005, FlatCandle(10)), Scale(1.0005, FlatCandle(20))])
  }

  /**
   Such a series: candles of ten seconds at one price, the first two stored, and a venue that doubled its prices
   and took them to 0.50025 of that before the third closed. The tail read at 40 stores two bases side by side.
   */
  lemma MixedSeries()
    ensures Moved(1.0, 2.0) && Moved(2.0, 1.0005) && History(FlatHistory(), TEN_SECONDS)
    ensures var f := Fetch(TEN_SECONDS, Some(FlatStored()), 40, MovedTail(), MovedWhole());
            HasStored(f.stored) && !OnOneBasis(FlatHistory(), TEN_SECONDS, true, 40, f.stored.value)
  {
    ExampleMoves();
    ExampleIsOfTheHistory(FlatHistory(), TEN_SECONDS, FlatStored(), MovedTail(), MovedWhole());
    hide *;
    UnnoticedRestatements(FlatHistory(), TEN_SECONDS, Some(FlatStored()), 25, 40, MovedTail(), MovedWhole());
  }

  lemma ExampleMoves()
    ensures 2.0 * 0.50025 == 1.0005 && Moved(1.0, 2.0) && Moved(2.0, 1.0005) && History(FlatHistory(), TEN_SECONDS)
    ensures ReadsTail(TEN_SECONDS, Some(FlatStored()), 40, MovedTail()) && MovedWhole().Success?
    ensures FlatStored()[|FlatStored()| - 1].open == 10 && StartOf(TEN_SECONDS, Some(FlatStored())) == 10
    ensures TEN_SECONDS.since == 0
  {
  }

  lemma ExampleIsOfTheHistory(raw: seq<Candle>, s: Series, existing: seq<Candle>, tail: Response, whole: Response)
    requires raw == [FlatCandle(0), FlatCandle(10), FlatCandle(20)] && s == Series(0, 10, false)
    requires existing == [FlatCandle(0), FlatCandle(10)]
    requires tail == Success([Scale(1.0005, FlatCandle(10)), Scale(1.0005, FlatCandle(20))])
    requires whole == Success([Scale(1.0005, FlatCandle(0)), Scale(1.0005, FlatCandle(10)), Scale(1.0005, FlatCandle(20))])
    ensures IsSeries(raw, s, true, 25, 1.0, existing)
    ensures HasFresh(raw, s, 10, 40)
    ensures Answers(raw, true, 1.0005, 10, 40, tail) && Answers(raw, true, 1.0005, 0, 40, whole)
  {
    forall x
      ensures x in existing <==> exists i :: 0 <= i < |raw| && InSeries(raw[i], s, true, 25) && x == Scale(1.0, raw[i])
    {
      assert Scale(1.0, raw[0]) == raw[0] && Scale(1.0, raw[1]) == raw[1];
      assert InSeries(raw[0], s, true, 25) && InSeries(raw[1], s, true, 25) && !InSeries(raw[2], s, true, 25);
    }
    forall x
      ensures x in tail.candles <==>
                exists i :: 0 <= i < |raw| && From(raw[i].open, 10, true) && raw[i].open <= 40 && x == Scale(1.0005, raw[i])
    {
      assert !From(raw[0].open, 10, true) && From(raw[1].open, 10, true) && From(raw[2].open, 10, true);
    }
    forall x
      ensures x in whole.candles <==>
                exists i :: 0 <= i < |raw| && From(raw[i].open, 0, true) && raw[i].open <= 40 && x == Scale(1.0005, raw[i])
    {
      assert From(raw[0].open, 0, true) && From(raw[1].open, 0, true) && From(raw[2].open, 0, true);
    }
    assert raw[2].open > 10;
  }
}
